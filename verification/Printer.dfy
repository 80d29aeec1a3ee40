/**
 Messages as a client prints them, and what the server makes of their bytes.
 */
module Printer {
  import opened CString
  import opened HttpParse
  import opened Reference

  /** A line that holds none of the bytes a line cannot hold. */
  predicate Plain(l: seq<char>) {
    '\r' !in l && '\n' !in l && NUL !in l
  }

  predicate AllPlain(ls: seq<seq<char>>) {
    forall k :: 0 <= k < |ls| ==> Plain(ls[k])
  }

  function Print(ls: seq<seq<char>>): seq<char> {
    if ls == [] then [] else ls[0] + "\r\n" + Print(ls[1..])
  }

  /** The lines `ls` printed from offset `at` on. */
  function Placed(at: nat, ls: seq<seq<char>>): (r: seq<Line>)
    ensures |r| == |ls|
    ensures forall k :: 0 <= k < |ls| ==> r[k].text == ls[k]
    decreases |ls|
  {
    if ls == [] then [] else [Line(at, ls[0], at + |ls[0]| + 2)] + Placed(at + |ls[0]| + 2, ls[1..])
  }

  /** A plain line that stands at `i`, with its CRLF, is the next line. */
  lemma OnePrinted(msg: seq<char>, i: nat, l: seq<char>)
    requires Plain(l) && i + |l| + 2 <= |msg|
    requires msg[i..i + |l|] == l && msg[i + |l|] == '\r' && msg[i + |l| + 1] == '\n'
    ensures Lines(msg, i) == [Line(i, l, i + |l| + 2)] + Lines(msg, i + |l| + 2)
  {
    var e := i + |l|;
    forall m | i <= m < e
      ensures msg[m] !in BREAK
    {
      assert msg[m] == l[m - i];
    }
    FindIs(msg, i, BREAK, e);
    assert msg[..e][i..i + |l|] == l;
    CStrIs(msg[..e], i, l);
  }

  /** Where the first of several printed lines stands, and where the others do. */
  lemma FirstPrinted(msg: seq<char>, i: nat, l: seq<char>, more: seq<char>)
    requires var text := l + "\r\n" + more; i + |text| <= |msg| && msg[i..i + |text|] == text
    ensures i + |l| + 2 <= |msg| && msg[i..i + |l|] == l && msg[i + |l|] == '\r' && msg[i + |l| + 1] == '\n'
    ensures msg[i + |l| + 2..i + |l| + 2 + |more|] == more
  {
    var text := l + "\r\n" + more;
    assert msg[i..i + |l|] == msg[i..i + |text|][..|l|];
    assert msg[i + |l|] == msg[i..i + |text|][|l|] && msg[i + |l| + 1] == msg[i..i + |text|][|l| + 1];
    assert msg[i + |l| + 2..i + |l| + 2 + |more|] == msg[i..i + |text|][|l| + 2..];
  }

  /** Splitting what was printed gives the printed lines back. */
  lemma {:induction false} LinesOfPrint(msg: seq<char>, i: nat, ls: seq<seq<char>>)
    requires AllPlain(ls) && i + |Print(ls)| <= |msg| && msg[i..i + |Print(ls)|] == Print(ls)
    ensures Lines(msg, i) == Placed(i, ls) + Lines(msg, i + |Print(ls)|)
    decreases |ls|
  {
    hide Lines, Plain;
    if ls != [] {
      var (l, more) := (ls[0], Print(ls[1..]));
      var j := i + |l| + 2;
      FirstPrinted(msg, i, l, more);
      OnePrinted(msg, i, l);
      LinesOfPrint(msg, j, ls[1..]);
      Assoc([Line(i, l, j)], Placed(j, ls[1..]), Lines(msg, j + |more|));
    }
  }

  lemma Assoc<T>(a: seq<T>, b: seq<T>, c: seq<T>)
    ensures a + (b + c) == (a + b) + c
  {
  }

  lemma {:induction false} BlankAfter(lines: seq<Line>, blank: Line, more: seq<Line>)
    requires forall k :: 0 <= k < |lines| ==> lines[k].text != []
    requires blank.text == []
    ensures FirstBlank(lines + [blank] + more) == |lines|
  {
    if lines == [] {
      assert ([blank] + more)[0] == blank;
      assert lines + [blank] + more == [blank] + more;
    } else {
      assert (lines + [blank] + more)[1..] == lines[1..] + [blank] + more;
      BlankAfter(lines[1..], blank, more);
    }
  }

  lemma {:induction false} PlacedConcat(at: nat, a: seq<seq<char>>, b: seq<seq<char>>)
    ensures Placed(at, a + b) == Placed(at, a) + Placed(at + |Print(a)|, b)
    ensures Print(a + b) == Print(a) + Print(b)
    decreases |a|
  {
    if a == [] {
      assert a + b == b;
    } else {
      var next := at + |a[0]| + 2;
      assert (a + b)[0] == a[0] && (a + b)[1..] == a[1..] + b;
      PlacedConcat(next, a[1..], b);
      Assoc([Line(at, a[0], next)], Placed(next, a[1..]), Placed(at + |Print(a)|, b));
      Assoc(a[0] + "\r\n", Print(a[1..]), Print(b));
    }
  }

  /** Headers printed at `i` and closed by a blank line are the lines up to the first blank one. */
  lemma HeaderLines(msg: seq<char>, i: nat, headers: seq<seq<char>>)
    requires AllPlain(headers) && forall k :: 0 <= k < |headers| ==> headers[k] != []
    requires var text := Print(headers + [""]); i + |text| <= |msg| && msg[i..i + |text|] == text
    ensures var (lines, e) := (Lines(msg, i), |headers|);
            && e < |lines| && FirstBlank(lines) == e && lines[..e] == Placed(i, headers)
            && lines[e].next == i + |Print(headers + [""])|
  {
    hide Lines, Print, Placed, FirstBlank;
    LinesOfPrint(msg, i, headers + [""]);
    PlacedConcat(i, headers, [""]);
    var (a, next) := (Placed(i, headers), i + |Print(headers)|);
    BlankPrinted(next);
    BlankAfter(a, Line(next, [], next + 2), Lines(msg, next + 2));
    FirstPart(a, Line(next, [], next + 2), Lines(msg, next + 2));
  }

  lemma FirstPart<T>(a: seq<T>, b: T, c: seq<T>)
    ensures (a + [b] + c)[..|a|] == a && (a + [b] + c)[|a|] == b
  {
  }

  lemma BlankPrinted(at: nat)
    ensures Print([""]) == "\r\n" && Placed(at, [""]) == [Line(at, [], at + 2)]
  {
    assert [""][1..] == [];
  }

  function Message(request: seq<char>, headers: seq<seq<char>>, body: seq<char>): seq<char> {
    Print([request]) + Print(headers + [""]) + body
  }

  /** What process_read makes of a printed message, whatever its request line, headers and body. */
  lemma ReadsMessage(request: seq<char>, headers: seq<seq<char>>, body: seq<char>)
    requires Plain(request) && AllPlain(headers) && forall k :: 0 <= k < |headers| ==> headers[k] != []
    ensures var msg := Message(request, headers, body);
            var (t, code) := Process(Arrive(FRESH, msg));
            var start := |request| + 2 + |Print(headers + [""])|;
            var g := Fold(NO_FIELDS, Placed(|request| + 2, headers));
            match RequestOf(request)
            case None => code == BadRequest
            case Some(r) =>
              && code == (if g.contentLength == 0 || |body| >= g.contentLength then GetRequest else NoRequest)
              && t.verb == r.verb && t.checked == start
              && t.contentLength == g.contentLength && t.linger == g.linger && t.boundary == PtrOf(g.boundary)
              && (g.contentLength >= 0 ==>
                    && t.url.At? && t.url.i <= |t.data| && CStr(t.data, t.url.i) == r.target
                    && Holds(t, g) && t.start <= |t.data|)
              && (code == GetRequest && g.contentLength > 0 ==>
                    t.checked <= |t.data| && t.data[t.checked..] == PutNul(body, g.contentLength))
  {
    hide Lines, CStr, RequestOf, Fold, Process, Print, PutNul, FirstBlank;
    var msg := Message(request, headers, body);
    var p := request + "\r\n";
    assert Print([request]) == p by { OneLinePrint(request); }
    OnePrinted(msg, 0, request);
    HeaderLines(msg, |p|, headers);
    var lines := Lines(msg, 0);
    assert lines[1..] == Lines(msg, |p|);
    ParserRefines(msg);
    assert msg[|p| + |Print(headers + [""])|..] == body;
  }

  lemma OneLinePrint(l: seq<char>)
    ensures Print([l]) == l + "\r\n"
  {
    assert [l][1..] == [];
  }

  // ---- printed request lines and header lines ----

  /** A request line printed with single spaces around a path free of blanks. */
  lemma RequestPrinted(name: seq<char>, path: seq<char>, version: seq<char>)
    requires ' ' !in name && '\t' !in name && ' ' !in path && '\t' !in path && path != [] && path[0] == '/'
    ensures RequestOf(name + " " + path + " " + version) ==
              if MethodOf(name).None? || !EqNoCase(version, "HTTP/1.1") then None
              else Some(Request(MethodOf(name).value, path))
  {
    hide MethodOf, EqNoCase, StartsNoCase, PathOf, Find;
    var line := name + " " + path + " " + version;
    FindBlank(name, path + " " + version);
    assert line == name + " " + (path + " " + version);
    assert line[..|name|] == name && line[|name| + 1..] == path + " " + version;
    FindBlank(path, version);
    var rest := path + " " + version;
    assert rest[..|path|] == path && rest[|path| + 1..] == version;
    PathIs(path);
  }

  /** "name SP path SP HTTP/1.1" */
  function RequestText(name: seq<char>, path: seq<char>): seq<char> {
    name + " " + path + " " + "HTTP/1.1"
  }

  lemma RequestTextIs(verb: Method, path: seq<char>)
    requires Plain(path) && ' ' !in path && '\t' !in path && path != [] && path[0] == '/'
    ensures var name := if verb == GET then "GET" else "POST";
            RequestOf(RequestText(name, path)) == Some(Request(verb, path)) && Plain(RequestText(name, path))
  {
    hide RequestOf, EqNoCase;
    var name := if verb == GET then "GET" else "POST";
    EqNoCaseRefl(name);
    EqNoCaseRefl("HTTP/1.1");
    NamesDiffer();
    RequestPrinted(name, path, "HTTP/1.1");
    PlainConcat(name, " ");
    PlainConcat(name + " ", path);
    PlainConcat(name + " " + path, " ");
    PlainConcat(name + " " + path + " ", "HTTP/1.1");
  }

  lemma NamesDiffer()
    ensures !EqNoCase("POST", "GET")
  {
  }

  lemma PlainConcat(a: seq<char>, b: seq<char>)
    requires Plain(a) && Plain(b)
    ensures Plain(a + b)
  {
  }

  lemma FindBlank(s: seq<char>, rest: seq<char>)
    requires ' ' !in s && '\t' !in s
    ensures Find(s + " " + rest, 0, BLANK) == |s|
  {
    var t := s + " " + rest;
    forall m | 0 <= m < |s|
      ensures t[m] !in BLANK
    {
      assert t[m] == s[m];
    }
    FindIs(t, 0, BLANK, |s|);
  }

  lemma PathIs(path: seq<char>)
    requires path != [] && path[0] == '/'
    ensures PathOf(path) == Some(path)
  {
    NotStarting(path, "http://", 0);
  }

  lemma NotStarting(t: seq<char>, p: seq<char>, i: nat)
    requires i < |t| && i < |p| && Lower(t[i]) != Lower(p[i])
    ensures !StartsNoCase(t, p)
  {
    if |p| <= |t| {
      EqNoCaseAt(t[..|p|], p);
    }
  }

  lemma Starting(p: seq<char>, v: seq<char>)
    ensures StartsNoCase(p + v, p) && (p + v)[|p|..] == v
  {
    assert (p + v)[..|p|] == p;
    EqNoCaseAt(p, p);
  }

  /** The text of a header value without leading blanks. */
  predicate NoLead(v: seq<char>) {
    v != [] ==> v[0] !in BLANK
  }

  lemma SkipOne(v: seq<char>)
    requires NoLead(v)
    ensures SkipBlank([' '] + v) == v
  {
    var t := [' '] + v;
    assert Span(t, 0, BLANK) == Span(t, 1, BLANK) == 1;
  }

  lemma NameDiffers(name: seq<char>, v: seq<char>, p: seq<char>, i: nat)
    requires i < |name| && i < |p| && Lower(name[i]) != Lower(p[i])
    ensures !StartsNoCase(name + v, p)
  {
    assert (name + v)[i] == name[i];
    NotStarting(name + v, p, i);
  }

  const LENGTH := "Content-Length:"
  const LINGER := "Connection:"
  const HOST := "Host:"

  lemma LengthPrinted(v: seq<char>)
    requires NoLead(v)
    ensures Classify(LENGTH + " " + v) == Length(v)
  {
    hide StartsNoCase, SkipBlank;
    assert LENGTH + " " + v == LENGTH + ([' '] + v);
    NameDiffers(LENGTH, [' '] + v, LINGER, 3);
    Starting(LENGTH, [' '] + v);
    SkipOne(v);
  }

  lemma NumberPrinted(n: nat)
    ensures NoLead(Itoa(n)) && Plain(Itoa(n)) && Atoi(Itoa(n)) == n
  {
    hide Itoa, Atoi;
    AtoiOfItoa(n);
  }

  lemma LingerPrinted(v: seq<char>)
    requires NoLead(v)
    ensures Classify(LINGER + " " + v) == Linger(v)
  {
    hide StartsNoCase, SkipBlank;
    assert LINGER + " " + v == LINGER + ([' '] + v);
    Starting(LINGER, [' '] + v);
    SkipOne(v);
  }

  lemma HostPrinted(v: seq<char>)
    requires NoLead(v)
    ensures Classify(HOST + " " + v) == HostName(v)
  {
    hide StartsNoCase, SkipBlank;
    assert HOST + " " + v == HOST + ([' '] + v);
    NameDiffers(HOST, [' '] + v, LINGER, 0);
    NameDiffers(HOST, [' '] + v, LENGTH, 0);
    Starting(HOST, [' '] + v);
    SkipOne(v);
  }

  /** A header whose name begins with another letter than the known ones is ignored. */
  lemma OtherPrinted(t: seq<char>)
    requires t != [] && Lower(t[0]) !in {'c', 'h'}
    ensures Classify(t) == Other
  {
    hide StartsNoCase, SkipBlank;
    NotStarting(t, "Connection:", 0);
    NotStarting(t, "Content-Length:", 0);
    NotStarting(t, "Host:", 0);
    NotStarting(t, FORM_TYPE, 0);
  }

  const MULTIPART := FORM_TYPE + " boundary="

  lemma MultipartPrinted(b: seq<char>)
    ensures Classify(MULTIPART + b) == Multipart && |MULTIPART| == 44 && (MULTIPART + b)[44..] == b
  {
    hide StartsNoCase, SkipBlank;
    var v := " boundary=" + b;
    assert MULTIPART + b == FORM_TYPE + v;
    NameDiffers(FORM_TYPE, v, LINGER, 3);
    NameDiffers(FORM_TYPE, v, LENGTH, 8);
    NameDiffers(FORM_TYPE, v, HOST, 0);
    Starting(FORM_TYPE, v);
  }

  lemma TypePlain()
    ensures Plain("Content-Type: ")
  {
  }

  lemma FormPlain()
    ensures Plain("multipart/form-data;")
  {
  }

  lemma BoundaryPlain()
    ensures Plain(" boundary=")
  {
  }

  lemma MultipartPlain(b: seq<char>)
    requires Plain(b)
    ensures Plain(MULTIPART + b)
  {
    hide Plain;
    TypePlain();
    FormPlain();
    BoundaryPlain();
    PlainConcat("Content-Type: ", "multipart/form-data;");
    PlainConcat(FORM_TYPE, " boundary=");
    PlainConcat(MULTIPART, b);
  }
}
