/**
 A parser of whole messages on values, written without buffers, cursors or states: cut the bytes at
 CRLF, read the first line as a request line, and fold the lines up to the first blank one into the
 header fields.  ParserRefines proves that process_read, in place and byte by byte, computes it.
 */
module Reference {
  import opened CString
  import opened HttpParse

  /** A line that CRLF ended: where it starts, its text as a C string, where the next line starts. */
  datatype Line = Line(at: nat, text: seq<char>, next: nat)

  /** The complete lines from `from` on, up to the end or to a CR or LF that is not part of a CRLF. */
  function Lines(msg: seq<char>, from: nat): (lines: seq<Line>)
    requires from <= |msg|
    ensures lines != [] ==> lines[0].at == from && from < lines[0].next <= |msg|
    decreases |msg| - from
  {
    var e := Find(msg, from, BREAK);
    if e + 1 < |msg| && msg[e] == '\r' && msg[e + 1] == '\n' then
      [Line(from, CStr(msg[..e], from), e + 2)] + Lines(msg, e + 2)
    else []
  }

  datatype Request = Request(verb: Method, target: seq<char>)

  function MethodOf(name: seq<char>): Option<Method> {
    if EqNoCase(name, "GET") then Some(GET) else if EqNoCase(name, "POST") then Some(POST) else None
  }

  /** The path of a target: the target itself, or what follows "http://host". */
  function PathOf(target: seq<char>): Option<seq<char>> {
    var p := if StartsNoCase(target, "http://") then target[Find(target, 7, {'/'})..] else target;
    if p == [] || p[0] != '/' then None else Some(p)
  }

  /** "target version": the path, if the version is HTTP/1.1. */
  function TargetAndVersion(rest: seq<char>): Option<seq<char>> {
    var j := Find(rest, 0, BLANK);
    if j == |rest| || !EqNoCase(rest[j + 1..], "HTTP/1.1") then None else PathOf(rest[..j])
  }

  /** "method target version", separated by single blanks. */
  function RequestOf(line: seq<char>): Option<Request> {
    var i := Find(line, 0, BLANK);
    if i == |line| then None else
    var (verb, path) := (MethodOf(line[..i]), TargetAndVersion(line[i + 1..]));
    if verb.None? || path.None? then None else Some(Request(verb.value, path.value))
  }

  /** Where m_boundary points, with its text when the header line is long enough to hold one. */
  datatype Mark = Mark(at: nat, text: Option<seq<char>>)

  datatype Fields = Fields(contentLength: int, linger: bool, host: Option<Line>, boundary: Option<Mark>)

  const NO_FIELDS := Fields(0, false, None, None)

  function PtrOf(m: Option<Mark>): Ptr {
    if m.Some? then At(m.value.at) else Null
  }

  function HostPtr(f: Fields): Ptr {
    if f.host.Some? then At(f.host.value.at) else Null
  }

  function MarkOf(line: Line): Mark {
    Mark(line.at + 44, if |line.text| >= 44 then Some(line.text[44..]) else None)
  }

  function WithField(f: Fields, line: Line): Fields {
    match Classify(line.text)
    case Linger(v) => f.(linger := !EqNoCase(v, "close"))
    case Length(v) => f.(contentLength := Atoi(v))
    case HostName(v) => f.(host := Some(Line(line.at + |line.text| - |v|, v, line.next)))
    case Multipart => f.(boundary := Some(MarkOf(line)))
    case Blank => f
    case Other => f
  }

  function Fold(f: Fields, lines: seq<Line>): Fields
    decreases |lines|
  {
    if lines == [] then f else Fold(WithField(f, lines[0]), lines[1..])
  }

  /** The index of the first line with an empty text, or the number of lines. */
  function FirstBlank(lines: seq<Line>): (e: nat)
    ensures e <= |lines|
  {
    if lines == [] || lines[0].text == [] then 0 else 1 + FirstBlank(lines[1..])
  }

  /** The answer once the header lines are known: `n` is the number of bytes that have arrived. */
  function Verdict(n: nat, f: Fields, lines: seq<Line>): Code {
    var e := FirstBlank(lines);
    if e == |lines| then NoRequest
    else if f.contentLength == 0 || n >= lines[e].next + f.contentLength then GetRequest
    else NoRequest
  }

  // ---- refinement ----

  /** The parser stands at the start of a line that nothing has touched yet. */
  ghost predicate AtLine(s: Conn, msg: seq<char>) {
    && Ordered(s) && s.state != Content && s.start == s.checked
    && |s.data| == |msg| && s.data[s.start..] == msg[s.start..]
    && (s.start > 0 ==> s.data[s.start - 1] == NUL)
  }

  lemma FindInTail(d: seq<char>, msg: seq<char>, i: nat, cs: set<char>)
    requires i <= |d| == |msg| && d[i..] == msg[i..]
    ensures Find(d, i, cs) == Find(msg, i, cs)
  {
    assert forall m :: i <= m < |d| ==> d[m] == d[i..][m - i] && msg[m] == msg[i..][m - i];
    FindIs(d, i, cs, Find(msg, i, cs));
  }

  /** Where the code cuts is where the next line ends. */
  lemma CutIsLine(d: seq<char>, msg: seq<char>, i: nat)
    requires i <= |d| == |msg| && d[i..] == msg[i..] && (i > 0 ==> d[i - 1] == NUL)
    ensures var (k, r) := (Find(msg, i, BREAK), CutLine(d, i));
            if k + 1 < |msg| && msg[k] == '\r' && msg[k + 1] == '\n'
            then r == (d[k := NUL][k + 1 := NUL], k + 2, LineOk)
            else r.0 == d && r.1 == k && r.2 != LineOk
  {
    hide Find;
    FindInTail(d, msg, i, BREAK);
    var k := Find(msg, i, BREAK);
    if k < |d| {
      TailAt(d, msg, i, k);
      if k + 1 < |d| {
        TailAt(d, msg, i, k + 1);
      }
      assert k > i ==> d[k - 1] !in BREAK;
    }
  }

  lemma TailAt(d: seq<char>, msg: seq<char>, i: nat, m: nat)
    requires i <= m < |d| == |msg| && d[i..] == msg[i..]
    ensures d[m] == msg[m]
  {
    assert d[m] == d[i..][m - i] && msg[m] == msg[i..][m - i];
  }

  /** What the two NULs leave of the buffer. */
  lemma CutLeaves(d: seq<char>, msg: seq<char>, i: nat, k: nat)
    requires i <= k && k + 1 < |d| == |msg| && d[i..] == msg[i..]
    ensures var (e, t) := (d[k := NUL][k + 1 := NUL], CStr(msg[..k], i));
            && CStr(e, i) == t && i + |t| <= k && e[k + 2..] == msg[k + 2..] && e[..i] == d[..i]
  {
    hide Find;
    var (e, t) := (d[k := NUL][k + 1 := NUL], CStr(msg[..k], i));
    assert forall m :: i <= m < |d| ==> d[m] == d[i..][m - i] && msg[m] == msg[i..][m - i];
    assert t == msg[..k][i..i + |t|] by { hide *; TextIs(msg[..k], i); }
    assert e[i..i + |t|] == t;
    CStrIs(e, i, t);
  }

  lemma TextIs(d: seq<char>, i: nat)
    requires i <= |d|
    ensures i + |CStr(d, i)| <= |d| && CStr(d, i) == d[i..i + |CStr(d, i)|]
  {
  }

  /** Cutting the line at the cursor yields the first of the remaining lines. */
  lemma OneLine(s: Conn, msg: seq<char>)
    requires AtLine(s, msg)
    ensures var ((s1, status), lines) := (ParseLine(s), Lines(msg, s.start));
            && s1 == s.(data := s1.data, checked := s1.checked)
            && (status == LineOk <==> lines != [])
            && (status != LineOk ==> s1.data == s.data)
            && (status == LineOk ==> Cuts(s, s1, msg, lines[0]) && Lines(msg, s1.checked) == lines[1..])
  {
    hide CutLine, Find, CStr, Lines;
    CutIsLine(s.data, msg, s.start);
    LinesFrom(msg, s.start);
    var k := Find(msg, s.start, BREAK);
    if k + 1 < |msg| && msg[k] == '\r' && msg[k + 1] == '\n' {
      CutLeaves(s.data, msg, s.start, k);
    }
  }

  lemma LinesFrom(msg: seq<char>, i: nat)
    requires i <= |msg|
    ensures var (k, lines) := (Find(msg, i, BREAK), Lines(msg, i));
            if k + 1 < |msg| && msg[k] == '\r' && msg[k + 1] == '\n'
            then lines != [] && lines[0] == Line(i, CStr(msg[..k], i), k + 2) && lines[1..] == Lines(msg, k + 2)
            else lines == []
  {
    hide Find, CStr;
  }

  /** `s1` is `s` with `line` cut off at the cursor. */
  ghost predicate Cuts(s: Conn, s1: Conn, msg: seq<char>, line: Line) {
    && s.start == line.at && s.start <= |s.data| && s1.checked == line.next
    && s.start + |line.text| + 2 <= s1.checked <= |s1.data| == |msg|
    && CStr(s1.data, s.start) == line.text
    && s1.data[s1.checked - 1] == NUL && s1.data[s1.checked..] == msg[s1.checked..]
    && s1.data[..s.start] == s.data[..s.start]
  }

  /** The C string at `i` is `t`, and its terminator lies below `limit`. */
  ghost predicate StringAt(d: seq<char>, i: nat, t: seq<char>, limit: nat) {
    i + |t| < limit <= |d| && CStr(d, i) == t
  }

  lemma StringKept(d: seq<char>, e: seq<char>, i: nat, t: seq<char>, limit: nat, limit': nat)
    requires StringAt(d, i, t, limit) && limit <= limit' <= |e| && d[..limit] == e[..limit]
    ensures StringAt(e, i, t, limit')
  {
    assert forall m :: 0 <= m < limit ==> d[m] == d[..limit][m] == e[..limit][m] == e[m];
    assert e[i..i + |t|] == d[i..i + |t|];
    CStrIs(e, i, t);
  }

  /** The fields of `s` hold what `f` says; their strings end before the current line. */
  ghost predicate Holds(s: Conn, f: Fields) {
    && s.contentLength == f.contentLength && s.linger == f.linger && s.boundary == PtrOf(f.boundary)
    && (f.host.None? ==> s.host.Null?)
    && (f.host.Some? ==> s.host == At(f.host.value.at) && StringAt(s.data, s.host.i, f.host.value.text, s.start))
    && (f.boundary.Some? && f.boundary.value.text.Some? ==>
          StringAt(s.data, f.boundary.value.at, f.boundary.value.text.value, s.start))
  }

  lemma HoldsKept(s: Conn, t: Conn, f: Fields)
    requires Holds(s, f) && s.start <= t.start <= |t.data| && s.start <= |s.data|
    requires t.data[..s.start] == s.data[..s.start]
    requires t.contentLength == s.contentLength && t.linger == s.linger && t.boundary == s.boundary && t.host == s.host
    ensures Holds(t, f)
  {
    hide StringAt;
    if f.host.Some? {
      StringKept(s.data, t.data, s.host.i, f.host.value.text, s.start, t.start);
    }
    if f.boundary.Some? && f.boundary.value.text.Some? {
      StringKept(s.data, t.data, f.boundary.value.at, f.boundary.value.text.value, s.start, t.start);
    }
  }

  /** A header line changes the fields as WithField says and nothing else. */
  lemma OneField(s: Conn, f: Fields, line: Line)
    requires Ordered(s) && s.state == Header && s.start == line.at && s.start + |line.text| < s.checked
    requires line.text != [] && CStr(s.data, s.start) == line.text && Holds(s, f)
    ensures var (s', code) := Dispatch(s);
            && code == NoRequest && s' == s.(start := s.checked, contentLength := s'.contentLength,
                                             linger := s'.linger, host := s'.host, boundary := s'.boundary)
            && Holds(s', WithField(f, line))
  {
    hide StartsNoCase, EqNoCase, Atoi, SkipBlank, CStr, StringAt;
    var t := line.text;
    HoldsKept(s, s.(start := s.checked), f);
    match Classify(t)
    case HostName(v) => SuffixString(s.data, s.start, t, v, s.checked);
    case Multipart =>
      if |t| >= 44 {
        SuffixString(s.data, s.start, t, t[44..], s.checked);
      }
    case _ =>
  }

  lemma SuffixString(d: seq<char>, i: nat, t: seq<char>, v: seq<char>, limit: nat)
    requires i <= |d| && CStr(d, i) == t && |v| <= |t| && v == t[|t| - |v|..] && i + |t| < limit <= |d|
    ensures StringAt(d, i + |t| - |v|, v, limit)
  {
    var j := i + |t| - |v|;
    TextIs(d, i);
    assert d[j..j + |v|] == v;
    CStrIs(d, j, v);
  }

  /** The blank line that ends the header block, and the body if there is one. */
  lemma BlankLine(s: Conn, f: Fields)
    requires Ordered(s) && s.state == Header && s.start < s.checked && CStr(s.data, s.start) == [] && Holds(s, f)
    ensures var (s2, code) := Dispatch(s);
            var (t, code') := if code != NoRequest then (s2, code) else Process(s2);
            && code' == (if f.contentLength == 0 || |s.data| >= s.checked + f.contentLength then GetRequest
                         else NoRequest)
            && t.start == t.checked == s.checked && |t.data| == |s.data|
            && (code' == GetRequest && f.contentLength > 0 ==>
                  t.data[t.checked..] == PutNul(s.data[s.checked..], f.contentLength))
            && Ends(s, t, f)
  {
    hide StartsNoCase, EqNoCase, Atoi, SkipBlank, CStr, StringAt;
    var (s2, code) := Dispatch(s);
    var t := if code != NoRequest then s2 else Process(s2).0;
    if f.contentLength >= 0 {
      assert s.checked + f.contentLength < |s.data| ==>
          s.data[s.checked + f.contentLength := NUL][s.checked..] == s.data[s.checked..][f.contentLength := NUL];
      assert t.data[..s.start] == s.data[..s.start];
      HoldsKept(s, t, f);
    }
  }

  lemma EndsAfter(s: Conn, s1: Conn, t: Conn, g: Fields)
    requires s.start <= s1.start <= |s1.data| && s.start <= |s.data| && s1.data[..s.start] == s.data[..s.start]
    requires s1.verb == s.verb && s1.url == s.url && s1.version == s.version && Ends(s1, t, g)
    ensures Ends(s, t, g)
  {
    if g.contentLength >= 0 {
      assert t.data[..s.start] == t.data[..s1.start][..s.start];
      assert s1.data[..s.start] == s1.data[..s1.start][..s.start];
    }
  }

  /** The parser stopped in `t` with `code` after the header lines `lines` of `msg` were read in `s`. */
  ghost predicate Finished(s: Conn, t: Conn, code: Code, msg: seq<char>, f: Fields, lines: seq<Line>) {
    var e := FirstBlank(lines);
    var g := Fold(f, lines[..e]);
    && code == Verdict(|msg|, g, lines)
    && Ends(s, t, g)
    && (e < |lines| ==> t.checked == t.start == lines[e].next && BodyStands(t, code, msg, g))
  }

  /** A body that has arrived stands behind the blank line, ended by a NUL. */
  ghost predicate BodyStands(t: Conn, code: Code, msg: seq<char>, g: Fields) {
    code == GetRequest && g.contentLength > 0 ==>
      t.checked <= |t.data| == |msg| && t.data[t.checked..] == PutNul(msg[t.checked..], g.contentLength)
  }

  lemma FinishedAfter(s: Conn, s2: Conn, t: Conn, code: Code, msg: seq<char>, f: Fields, lines: seq<Line>)
    requires lines != [] && lines[0].text != []
    requires Finished(s2, t, code, msg, WithField(f, lines[0]), lines[1..])
    requires s.start <= s2.start <= |s2.data| && s.start <= |s.data| && s2.data[..s.start] == s.data[..s.start]
    requires s2.verb == s.verb && s2.url == s.url && s2.version == s.version
    ensures Finished(s, t, code, msg, f, lines)
  {
    hide WithField, Ends;
    var e := FirstBlank(lines[1..]);
    assert lines[..e + 1][1..] == lines[1..][..e];
    EndsAfter(s, s2, t, Fold(f, lines[..e + 1]));
  }

  /** The header block: process_read folds the remaining lines into the fields. */
  lemma {:induction false} HeaderStage(s: Conn, msg: seq<char>, f: Fields)
    requires AtLine(s, msg) && s.state == Header && Holds(s, f)
    ensures Finished(s, Process(s).0, Process(s).1, msg, f, Lines(msg, s.start))
    decreases |msg| - s.start
  {
    hide CutLine, CStr, Lines, StringAt, WithField, Dispatch;
    OneLine(s, msg);
    var ((s1, status), lines) := (ParseLine(s), Lines(msg, s.start));
    HoldsKept(s, s1, f);
    if status == LineOk && lines[0].text != [] {
      OneField(s1, f, lines[0]);
      var s2 := Dispatch(s1).0;
      HeaderStage(s2, msg, WithField(f, lines[0]));
      FinishedAfter(s, s2, Process(s).0, Process(s).1, msg, f, lines);
    } else {
      assert lines[..0] == [];
      if status == LineOk {
        BlankLine(s1, f);
        EndsAfter(s, s1, Process(s).0, f);
      }
    }
  }

  /** `t` keeps what the request line left in `s` and holds the fields `g`.  With a negative content
      length the NUL that parse_content writes may fall into the strings. */
  ghost predicate Ends(s: Conn, t: Conn, g: Fields) {
    && t.verb == s.verb && t.url == s.url && t.version == s.version
    && t.contentLength == g.contentLength && t.linger == g.linger
    && t.boundary == PtrOf(g.boundary) && t.host == HostPtr(g)
    && s.start <= t.start <= |t.data| && s.start <= |s.data|
    && (g.contentLength >= 0 ==> Holds(t, g) && t.data[..s.start] == s.data[..s.start])
  }

  // ---- the request line ----

  /** `t` is the C string at `i`, with its terminator inside `d`. */
  ghost predicate HasText(d: seq<char>, i: nat, t: seq<char>) {
    i + |t| < |d| && d[i..i + |t|] == t && d[i + |t|] == NUL && NUL !in t
  }

  /** A blank in the string is found where it is, and cutting there leaves both parts as strings. */
  lemma CutAtBlank(d: seq<char>, i: nat, t: seq<char>)
    requires HasText(d, i, t)
    ensures var k := Find(t, 0, BLANK);
            && BlankIn(d, i) == (if k < |t| then At(i + k) else Null)
            && (k < |t| ==> HasText(d[i + k := NUL], i, t[..k]) && HasText(d[i + k := NUL], i + k + 1, t[k + 1..]))
  {
    hide HasText;
    BlankOf(d, i, t);
    if Find(t, 0, BLANK) < |t| {
      TextCut(d, i, t, Find(t, 0, BLANK));
    }
  }

  lemma BlankOf(d: seq<char>, i: nat, t: seq<char>)
    requires HasText(d, i, t)
    ensures var k := Find(t, 0, BLANK); i + k < |d| && BlankIn(d, i) == if k < |t| then At(i + k) else Null
  {
    hide Find;
    var k := Find(t, 0, BLANK);
    forall m | i <= m < i + k
      ensures d[m] !in BLANK + {NUL}
    {
      assert d[m] == d[i..i + |t|][m - i] == t[m - i];
      assert t[m - i] !in BLANK;
    }
    assert k < |t| ==> d[i + k] == d[i..i + |t|][k] == t[k];
    FindIs(d, i, BLANK + {NUL}, i + k);
  }

  lemma TextCut(d: seq<char>, i: nat, t: seq<char>, k: nat)
    requires HasText(d, i, t) && k < |t|
    ensures HasText(d[i + k := NUL], i, t[..k]) && HasText(d[i + k := NUL], i + k + 1, t[k + 1..])
  {
    var e := d[i + k := NUL];
    assert e[i..i + k] == t[..k];
    assert e[i + k + 1..i + |t|] == t[k + 1..];
    assert i + k + 1 + |t[k + 1..]| == i + |t|;
  }

  lemma TextAt(d: seq<char>, i: nat, t: seq<char>)
    requires HasText(d, i, t)
    ensures CStr(d, i) == t && StringAt(d, i, t, |d|)
  {
    CStrIs(d, i, t);
  }

  /** strchr(m_url, '/') finds the first slash of the string or nothing. */
  lemma SlashOf(d: seq<char>, i: nat, t: seq<char>)
    requires HasText(d, i, t)
    ensures var k := Find(t, 0, {'/'});
            SlashIn(d, i) == if k < |t| then At(i + k) else Null
  {
    var k := Find(t, 0, {'/'});
    assert forall m :: 0 <= m < |t| ==> d[i + m] == t[m];
    forall m | i <= m < i + k
      ensures d[m] !in {'/', NUL}
    {
      assert d[m] == t[m - i];
    }
    FindIs(d, i, {'/', NUL}, i + k);
  }

  lemma SuffixText(d: seq<char>, i: nat, t: seq<char>, k: nat)
    requires HasText(d, i, t) && k <= |t|
    ensures HasText(d, i + k, t[k..])
  {
  }

  lemma FindFrom(t: seq<char>, k: nat, cs: set<char>)
    requires k <= |t|
    ensures Find(t, k, cs) == k + Find(t[k..], 0, cs)
  {
    var j := Find(t[k..], 0, cs);
    forall m | k <= m < k + j
      ensures t[m] !in cs
    {
      assert t[m] == t[k..][m - k];
    }
    FindIs(t, k, cs, k + j);
  }

  /** The target: CutTarget accepts it exactly when it has a path, and leaves m_url at that path. */
  lemma TargetStage(c: Cut, target: seq<char>)
    requires c.url.At? && HasText(c.data, c.url.i, target)
    ensures var r := CutTarget(c);
            match PathOf(target)
            case None => r.code == BadRequest
            case Some(p) => r.code == NoRequest && r == c.(url := r.url, code := NoRequest)
                            && r.url.At? && HasText(c.data, r.url.i, p) && c.url.i <= r.url.i
                            && r.url.i + |p| == c.url.i + |target|
  {
    hide StartsNoCase, CStr, Find;
    TextAt(c.data, c.url.i, target);
    if StartsNoCase(target, "http://") {
      SuffixText(c.data, c.url.i, target, 7);
      SlashOf(c.data, c.url.i + 7, target[7..]);
      FindFrom(target, 7, {'/'});
      var k := Find(target, 7, {'/'});
      SuffixText(c.data, c.url.i, target, k);
      assert k < |target| ==> target[k] == '/' by { FindStops(target, 7, '/'); }
    } else {
      SuffixText(c.data, c.url.i, target, 0);
      assert target[0..] == target;
    }
  }

  lemma FindStops(t: seq<char>, k: nat, c: char)
    requires k <= |t|
    ensures var j := Find(t, k, {c}); j < |t| ==> t[j] == c
  {
  }

  /** What an accepted request line `t` at `i` leaves in the buffer: the path as the string at m_url,
      right behind it the version, and no change outside the line. */
  ghost predicate Accepted(d: seq<char>, i: nat, t: seq<char>, c: Cut, r: Request) {
    && c.code == NoRequest && c.verb == r.verb && |c.data| == |d|
    && c.url.At? && i <= c.url.i && HasText(c.data, c.url.i, r.target)
    && c.url.i + |r.target| + 9 == i + |t| < |d|
    && c.version == At(c.url.i + |r.target| + 1)
    && EqNoCase(c.data[c.version.i..c.version.i + 8], "HTTP/1.1")
    && c.data[..i] == d[..i] && c.data[i + |t|..] == d[i + |t|..]
  }

  lemma AcceptedFrom(d: seq<char>, i: nat, t: seq<char>, k: nat, c: Cut, r: Request)
    requires HasText(d, i, t) && k < |t| && Accepted(d[i + k := NUL], i + k + 1, t[k + 1..], c, r)
    ensures Accepted(d, i, t, c, r)
  {
    var (e, u) := (d[i + k := NUL], i + k + 1);
    assert c.data[..i] == c.data[..u][..i] == e[..u][..i] == d[..i];
    assert i + |t| == u + |t[k + 1..]|;
    assert c.data[i + |t|..] == e[i + |t|..] == d[i + |t|..];
  }

  lemma VersionStage(c: Cut, rest: seq<char>)
    requires c.url.At? && HasText(c.data, c.url.i, rest)
    ensures var r := CutVersion(c);
            match TargetAndVersion(rest)
            case None => r.code == BadRequest
            case Some(p) => Accepted(c.data, c.url.i, rest, r, Request(c.verb, p))
  {
    hide Find, EqNoCase, CStr, CutTarget, PathOf, BlankIn, HasText, StringAt;
    var d, u := c.data, c.url.i;
    CutAtBlank(d, u, rest);
    var j := Find(rest, 0, BLANK);
    if j < |rest| {
      var c2 := c.(data := d[u + j := NUL], version := At(u + j + 1));
      TextAt(c2.data, u + j + 1, rest[j + 1..]);
      TargetStage(c2, rest[..j]);
      EqNoCaseAt(rest[j + 1..], "HTTP/1.1");
      if EqNoCase(rest[j + 1..], "HTTP/1.1") {
        VersionLength(rest, j);
        TextInside(d, u, rest);
        TextInside(c2.data, u + j + 1, rest[j + 1..]);
        assert c2.data[..u] == d[..u];
        assert c2.data[u + |rest|..] == d[u + |rest|..];
      }
    }
  }

  lemma VersionLength(rest: seq<char>, j: nat)
    requires j < |rest| && EqNoCase(rest[j + 1..], "HTTP/1.1")
    ensures j + 9 == |rest|
  {
    EqNoCaseAt(rest[j + 1..], "HTTP/1.1");
  }

  lemma TextInside(d: seq<char>, i: nat, t: seq<char>)
    requires HasText(d, i, t)
    ensures i + |t| < |d| && d[i..i + |t|] == t
  {
  }

  lemma RequestStage(d: seq<char>, i: nat, t: seq<char>, verb: Method, version: Ptr)
    requires HasText(d, i, t)
    ensures var c := CutRequest(d, i, verb, version);
            match RequestOf(t)
            case None => c.code == BadRequest
            case Some(r) => Accepted(d, i, t, c, r)
  {
    hide Find, EqNoCase, CStr, CutVersion, BlankIn, HasText, TargetAndVersion, Accepted, StringAt;
    CutAtBlank(d, i, t);
    var k := Find(t, 0, BLANK);
    TextInside(d, i, t);
    if k < |t| {
      var c := Cut(d[i + k := NUL], verb, At(i + k + 1), version, NoRequest);
      TextAt(c.data, i, t[..k]);
      VersionStage(c.(verb := GET), t[k + 1..]);
      VersionStage(c.(verb := POST), t[k + 1..]);
      if MethodOf(t[..k]).Some? && TargetAndVersion(t[k + 1..]).Some? {
        AcceptedFrom(d, i, t, k, CutRequest(d, i, verb, version), RequestOf(t).value);
      }
    }
  }

  // ---- the whole message ----

  /** The fields and the answer the message calls for. */
  ghost predicate Refines(t: Conn, code: Code, msg: seq<char>) {
    var lines := Lines(msg, 0);
    if lines == [] then code == NoRequest
    else
      match RequestOf(lines[0].text)
      case None => code == BadRequest
      case Some(r) =>
        var rest := lines[1..];
        var e := FirstBlank(rest);
        var g := Fold(NO_FIELDS, rest[..e]);
        && code == Verdict(|msg|, g, rest)
        && t.verb == r.verb
        && t.contentLength == g.contentLength && t.linger == g.linger
        && t.boundary == PtrOf(g.boundary) && t.host == HostPtr(g)
        && (e < |rest| ==> t.checked == rest[e].next && BodyStands(t, code, msg, g))
        && t.url.At? && t.version == At(t.url.i + |r.target| + 1)
        && t.url.i + |r.target| + 11 <= lines[0].next <= t.start <= |t.data|
        && (g.contentLength >= 0 ==> StringAt(t.data, t.url.i, r.target, t.start) && Holds(t, g))
  }

  /** process_read on the bytes of a message, in place, computes what the message calls for. */
  lemma ParserRefines(msg: seq<char>)
    ensures var (t, code) := Process(Arrive(FRESH, msg)); Refines(t, code, msg)
  {
    hide CutLine, CStr, Lines, StringAt, HasText, CutRequest, RequestOf, FirstBlank, Fold, Verdict;
    var s := Arrive(FRESH, msg);
    assert [] + msg == msg == msg[0..];
    OneLine(s, msg);
    var ((s1, status), lines) := (ParseLine(s), Lines(msg, 0));
    if status == LineOk {
      var t := lines[0].text;
      LineText(s1.data, 0, t, s1.checked);
      RequestStage(s1.data, 0, t, s1.verb, s1.version);
      if RequestOf(t).Some? {
        var s2 := Dispatch(s1).0;
        AfterRequest(s1, s2, msg, t, RequestOf(t).value);
        HeaderStage(s2, msg, NO_FIELDS);
        if Process(s2).0.contentLength >= 0 {
          StringKept(s2.data, Process(s2).0.data, s2.url.i, RequestOf(t).value.target, s2.start, Process(s2).0.start);
        }
      }
    }
  }

  lemma LineText(d: seq<char>, i: nat, t: seq<char>, limit: nat)
    requires i <= |d| && CStr(d, i) == t && i + |t| < limit <= |d|
    ensures HasText(d, i, t)
  {
    TextIs(d, i);
  }

  /** After an accepted request line the parser stands at the first header line. */
  lemma AfterRequest(s1: Conn, s2: Conn, msg: seq<char>, t: seq<char>, r: Request)
    requires Ordered(s1) && s1.state == RequestLine && s1.start == 0 && |t| + 2 <= s1.checked <= |s1.data| == |msg|
    requires s1.data[s1.checked - 1] == NUL && s1.data[s1.checked..] == msg[s1.checked..]
    requires Accepted(s1.data, 0, t, CutRequest(s1.data, 0, s1.verb, s1.version), r)
    requires s2 == Dispatch(s1).0 && Holds(s1, NO_FIELDS)
    ensures AtLine(s2, msg) && s2.state == Header && s2.start == s1.checked && Holds(s2, NO_FIELDS)
    ensures s2.url.At? && StringAt(s2.data, s2.url.i, r.target, s2.start) && s2.verb == r.verb
    ensures s2.url.i + |r.target| + 11 <= s2.start && s2.version == At(s2.url.i + |r.target| + 1)
  {
    hide CutRequest, CStr;
    var c := CutRequest(s1.data, 0, s1.verb, s1.version);
    var k := s1.checked;
    assert c.data[k..] == c.data[|t|..][k - |t|..] == s1.data[|t|..][k - |t|..] == s1.data[k..];
    assert c.data[k - 1] == c.data[|t|..][k - 1 - |t|] == s1.data[|t|..][k - 1 - |t|];
    TextAt(c.data, c.url.i, r.target);
  }

  lemma {:induction false} LinesBehind(msg: seq<char>, from: nat)
    requires from <= |msg|
    ensures forall k :: 0 <= k < |Lines(msg, from)| ==>
              from <= Lines(msg, from)[k].at && Lines(msg, from)[k].at + |Lines(msg, from)[k].text| <= |msg|
    decreases |msg| - from
  {
    hide CStr;
    var lines := Lines(msg, from);
    if lines != [] {
      LinesBehind(msg, lines[0].next);
      assert lines == [lines[0]] + Lines(msg, lines[0].next);
    }
  }

  /** The strings of the header fields stand in the lines they came from. */
  lemma {:induction false} FieldsBehind(f: Fields, lines: seq<Line>, lo: nat, hi: nat)
    requires forall k :: 0 <= k < |lines| ==> lo <= lines[k].at && lines[k].at + |lines[k].text| <= hi
    requires (f.host.Some? ==> lo <= f.host.value.at <= hi) && (f.boundary.Some? ==> f.boundary.value.at >= lo)
    ensures var g := Fold(f, lines);
            (g.host.Some? ==> lo <= g.host.value.at <= hi) && (g.boundary.Some? ==> g.boundary.value.at >= lo)
    decreases |lines|
  {
    hide StartsNoCase, EqNoCase, Atoi;
    if lines != [] {
      FieldsBehind(WithField(f, lines[0]), lines[1..], lo, hi);
    }
  }

  // ---- the last occurrence of a header wins ----

  predicate SameKind(a: Field, b: Field) {
    match a
    case Linger(_) => b.Linger?
    case Length(_) => b.Length?
    case HostName(_) => b.HostName?
    case Multipart => b.Multipart?
    case Blank => false
    case Other => false
  }

  /** A field of `f` is what the header line `line` of kind `kind` makes of it. */
  predicate Says(f: Fields, line: Line) {
    match Classify(line.text)
    case Linger(v) => f.linger == !EqNoCase(v, "close")
    case Length(v) => f.contentLength == Atoi(v)
    case HostName(v) => f.host.Some? && f.host.value.text == v
    case Multipart => f.boundary == Some(MarkOf(line))
    case Blank => true
    case Other => true
  }

  lemma {:induction false} LastWins(f: Fields, lines: seq<Line>, k: nat)
    requires k < |lines|
    requires forall m :: k < m < |lines| ==> !SameKind(Classify(lines[k].text), Classify(lines[m].text))
    ensures Says(Fold(f, lines), lines[k])
    decreases |lines|
  {
    hide Classify, Atoi, EqNoCase;
    if k > 0 {
      LastWins(WithField(f, lines[0]), lines[1..], k - 1);
    } else {
      StaysSaid(WithField(f, lines[0]), lines[1..], lines[0]);
    }
  }

  lemma {:induction false} StaysSaid(f: Fields, lines: seq<Line>, line: Line)
    requires Says(f, line)
    requires forall m :: 0 <= m < |lines| ==> !SameKind(Classify(line.text), Classify(lines[m].text))
    ensures Says(Fold(f, lines), line)
    decreases |lines|
  {
    hide Classify, Atoi, EqNoCase;
    if lines != [] {
      StaysSaid(WithField(f, lines[0]), lines[1..], line);
    }
  }

  /** Without a line of its kind a field keeps its initial value. */
  lemma {:induction false} AbsentKeeps(f: Fields, lines: seq<Line>)
    ensures var g := Fold(f, lines);
            && ((forall m :: 0 <= m < |lines| ==> !Classify(lines[m].text).Length?) ==>
                  g.contentLength == f.contentLength)
            && ((forall m :: 0 <= m < |lines| ==> !Classify(lines[m].text).Linger?) ==> g.linger == f.linger)
            && ((forall m :: 0 <= m < |lines| ==> !Classify(lines[m].text).HostName?) ==> g.host == f.host)
            && ((forall m :: 0 <= m < |lines| ==> !Classify(lines[m].text).Multipart?) ==> g.boundary == f.boundary)
    decreases |lines|
  {
    hide Classify, Atoi, EqNoCase;
    if lines != [] {
      AbsentKeeps(WithField(f, lines[0]), lines[1..]);
    }
  }
}
