/**
 build_request of webbench: the benchmark client's printer.  Together with the server's parser it gives
 a round trip between two programs.
 */
module Webbench {
  import opened CString
  import opened HttpParse
  import opened Reference
  import opened Printer
  import opened Meaning

  const REQUEST_SIZE := 2048

  datatype Verb = Get | Head | Options | Trace

  /** The command line settings build_request looks at; http10 is 0, 1 or 2 for HTTP/0.9, 1.0, 1.1. */
  datatype Settings = Settings(verb: Verb, http10: nat, reload: bool, proxy: bool)

  function VerbName(v: Verb): seq<char> {
    match v
    case Get => "GET"
    case Head => "HEAD"
    case Options => "OPTIONS"
    case Trace => "TRACE"
  }

  /** The protocol version after build_request raised it where the request needs more. */
  function Version(s: Settings): nat {
    var h := if s.reload && s.proxy && s.http10 < 1 then 1 else s.http10;
    if s.verb == Head && h < 1 then 1
    else if (s.verb == Options || s.verb == Trace) && h < 2 then 2
    else h
  }

  /** The index of the first "://", or the end. */
  function SchemeEnd(url: seq<char>, i: nat): (j: nat)
    requires i <= |url|
    ensures i <= j <= |url| && (j < |url| ==> j + 3 <= |url|)
    decreases |url| - i
  {
    if i + 3 > |url| then |url| else if url[i..i + 3] == "://" then i else SchemeEnd(url, i + 1)
  }

  /** Why build_request gives up, in the order of its tests. */
  datatype Refusal = NotAUrl | TooLong | NotHttp | NoSlash

  /** The parts of an accepted URL: where the host starts, where it ends, where the path starts. */
  datatype Parts = Parts(host: nat, colon: nat, slash: nat)

  function Analyse(s: Settings, url: seq<char>): (r: Result<Parts, Refusal>)
    ensures r.Ok? ==> r.value.host <= r.value.colon <= r.value.slash < |url| <= 1500 && url[r.value.slash] == '/'
  {
    var i := SchemeEnd(url, 0);
    if i == |url| then Err(NotAUrl)
    else if |url| > 1500 then Err(TooLong)
    else if !s.proxy && !StartsNoCase(url, "http://") then Err(NotHttp)
    else
      var host := i + 3;
      var slash := Find(url, host, {'/'});
      if slash == |url| then Err(NoSlash)
      else
        var colon := Find(url, host, {':'});
        Ok(Parts(host, if colon < slash then colon else slash, slash))
  }

  datatype Result<+V, +E> = Ok(value: V) | Err(error: E)

  const AGENT := "User-Agent: WebBench 1.5"

  function VersionSuffix(h: nat): seq<char> {
    if h == 1 then " HTTP/1.0" else if h == 2 then " HTTP/1.1" else ""
  }

  /** The request line without its CRLF. */
  function FirstLine(s: Settings, target: seq<char>): seq<char> {
    VerbName(s.verb) + " " + target + VersionSuffix(Version(s))
  }

  function HostLine(s: Settings, host: seq<char>): seq<char> {
    if !s.proxy && Version(s) > 0 then "Host: " + host + "\r\n" else ""
  }

  function AgentLine(s: Settings): seq<char> {
    if Version(s) > 0 then AGENT + "\r\n" else ""
  }

  function PragmaLine(s: Settings): seq<char> {
    if s.reload && s.proxy then "Pragma: no-cache\r\n" else ""
  }

  function CloseLine(s: Settings): seq<char> {
    if Version(s) > 1 then "Connection: close\r\n" else ""
  }

  function LastLine(s: Settings): seq<char> {
    if Version(s) > 0 then "\r\n" else ""
  }

  /** The text of the whole request. */
  function Built(s: Settings, target: seq<char>, host: seq<char>): seq<char> {
    FirstLine(s, target) + "\r\n" + AgentLine(s) + HostLine(s, host) + PragmaLine(s) + CloseLine(s) + LastLine(s)
  }

  /** A char array that holds one C string. */
  class CBuffer {
    const data: array<char>

    constructor (size: nat)
      requires size > 0
      ensures fresh(data) && data.Length == size && Text() == [] && Valid()
    {
      data := new char[size](_ => NUL);
      new;
      FindIs(data[..], 0, {NUL}, 0);
    }

    ghost predicate Valid()
      reads data
    {
      |Text()| < data.Length
    }

    ghost function Text(): (t: seq<char>)
      reads data
    {
      CStr(data[..], 0)
    }

    /** bzero */
    method Clear()
      requires data.Length > 0
      modifies data
      ensures Text() == [] && Valid()
    {
      forall i | 0 <= i < data.Length {
        data[i] := NUL;
      }
      FindIs(data[..], 0, {NUL}, 0);
    }

    /** strcat */
    method Cat(s: seq<char>)
      requires Valid() && NUL !in s && |Text()| + |s| < data.Length
      modifies data
      ensures Valid() && Text() == old(Text()) + s
    {
      ghost var t := Text();
      var n := Find(data[..], 0, {NUL});
      forall i | 0 <= i < |s| {
        data[n + i] := s[i];
      }
      data[n + |s|] := NUL;
      assert data[..][0..n] == t;
      assert data[..][0..n + |s|] == t + s;
      CStrIs(data[..], 0, t + s);
    }
  }

  function Target(s: Settings, url: seq<char>, p: Parts): seq<char>
    requires p.slash <= |url|
  {
    if s.proxy then url else url[p.slash..]
  }

  function HostOf(s: Settings, url: seq<char>, p: Parts): seq<char>
    requires p.host <= p.colon <= |url|
  {
    if s.proxy then "" else url[p.host..p.colon]
  }

  /** Whatever the settings, the request for an accepted URL fits its buffer. */
  lemma BuiltFits(s: Settings, url: seq<char>, p: Parts)
    requires Analyse(s, url) == Ok(p)
    ensures |Built(s, Target(s, url, p), HostOf(s, url, p))| < 2048 == REQUEST_SIZE
    ensures |Target(s, url, p)| + |HostOf(s, url, p)| <= 1500
  {
    hide Analyse;
    var t := Analyse(s, url);
    var (target, host) := (Target(s, url, p), HostOf(s, url, p));
    assert |target| + |host| <= 1500;
    FirstShort(s, target);
    LinesShort(s, host);
  }

  lemma FirstShort(s: Settings, target: seq<char>)
    ensures |FirstLine(s, target)| <= 17 + |target|
  {
    hide Version;
    SuffixShort(Version(s));
  }

  lemma SuffixShort(h: nat)
    ensures |VersionSuffix(h)| <= 9
  {
  }

  lemma LinesShort(s: Settings, host: seq<char>)
    ensures |AgentLine(s)| <= 26 && |HostLine(s, host)| <= |host| + 8 && |PragmaLine(s)| <= 18
    ensures |CloseLine(s)| <= 19 && |LastLine(s)| <= 2
  {
    hide Version;
  }

  class Client {
    const request: CBuffer
    const host: CBuffer
    var proxyPort: int
    var http10: nat

    constructor (hostSize: nat)
      requires hostSize > 0
      ensures Valid() && fresh(request.data) && fresh(host.data) && host.data.Length == hostSize
    {
      request := new CBuffer(REQUEST_SIZE);
      host := new CBuffer(hostSize);
      proxyPort, http10 := 80, 1;
    }

    ghost predicate Valid()
      reads this
    {
      request.data.Length == REQUEST_SIZE && request.data != host.data && host.data.Length > 0
    }

    method BuildRequest(s: Settings, url: seq<char>) returns (refused: Option<Refusal>)
      requires Valid() && NUL !in url
      requires Analyse(s, url).Ok? && !s.proxy ==>
                 var p := Analyse(s, url).value;
                 p.colon - p.host < host.data.Length && (p.colon < p.slash ==> p.slash - p.colon <= 10)
      modifies this, request.data, host.data
      ensures match Analyse(s, url)
              case Err(e) => refused == Some(e)
              case Ok(p) =>
                && refused == None && http10 == Version(s)
                && host.Text() == HostOf(s, url, p)
                && request.Text() == Built(s, Target(s, url, p), HostOf(s, url, p))
                && |request.Text()| < 2048
                && (var (target, name) := if s.proxy then (url, "") else (url[p.slash..], url[p.host..p.colon]);
                    host.Text() == name && request.Text() == Print(RequestLines(s, Version(s), target, name)))
                && (!s.proxy && p.colon < p.slash ==>
                      var port := Atoi(url[p.colon + 1..p.slash]); proxyPort == if port == 0 then 80 else port)
    {
      hide StartsNoCase, CStr, Find, Atoi, SchemeEnd, FirstLine, AgentLine, HostLine, PragmaLine, CloseLine, LastLine;
      host.Clear();
      request.Clear();
      http10 := Version(s);
      var parts := Analyse(s, url);
      if parts.Err? {
        return Some(parts.error);
      }
      var p := parts.value;
      BuiltFits(s, url, p);
      hide Analyse, Version, Built, RequestLines;
      if !s.proxy {
        assert NUL !in url[p.host..p.colon];
        host.Cat(url[p.host..p.colon]);
        if p.colon < p.slash {
          proxyPort := Atoi(url[p.colon + 1..p.slash]);
          if proxyPort == 0 {
            proxyPort := 80;
          }
        }
      }
      var target := Target(s, url, p);
      assert NUL !in target;
      PrintAll(s, target, HostOf(s, url, p));
      BuiltMeans(s, target, HostOf(s, url, p));
      return None;
    }

    /** build_request on a direct URL whose host and port fit: what it leaves in the request buffer is served. */
    method BuildDirect(s: Settings, hostPort: seq<char>, path: seq<char>)
      requires Valid() && DirectUrl(hostPort, path) && !s.proxy
      requires var c := Find(hostPort, 0, {':'}); c < host.data.Length && |hostPort| - c <= 10
      modifies this, request.data, host.data
      ensures ServedAs(s, hostPort, path, request.Text()) && |request.Text()| < REQUEST_SIZE
    {
      hide Analyse, Built, ServedAs, Version, Find;
      DirectParts(s, hostPort, path);
      RoundTrip(s, hostPort, path);
      DirectNoNul(hostPort, path);
      var refused := BuildRequest(s, SCHEME + hostPort + path);
    }

    /** The strcat calls of build_request. */
    method PrintAll(s: Settings, target: seq<char>, hostText: seq<char>)
      requires Valid() && request.Text() == [] && NUL !in target && NUL !in hostText && http10 == Version(s)
      requires |target| + |hostText| <= 1500
      modifies request.data
      ensures request.Text() == Built(s, target, hostText)
    {
      hide FirstLine, AgentLine, HostLine, PragmaLine, CloseLine, LastLine, Version;
      LinesShort(s, hostText);
      FirstShort(s, target);
      PrintFirst(s, target);
      PrintHeaders(s, FirstLine(s, target) + "\r\n", hostText);
      PrintEnd(s, FirstLine(s, target) + "\r\n" + AgentLine(s) + HostLine(s, hostText));
    }

    method PrintFirst(s: Settings, target: seq<char>)
      requires Valid() && request.Text() == [] && NUL !in target && http10 == Version(s)
      requires |FirstLine(s, target)| + 300 < REQUEST_SIZE
      modifies request.data
      ensures request.Text() == FirstLine(s, target) + "\r\n"
    {
      hide Version;
      request.Cat(VerbName(s.verb));
      request.Cat(" ");
      request.Cat(target);
      if http10 == 1 {
        request.Cat(" HTTP/1.0");
      } else if http10 == 2 {
        request.Cat(" HTTP/1.1");
      }
      request.Cat("\r\n");
    }

    method PrintHeaders(s: Settings, text: seq<char>, hostText: seq<char>)
      requires Valid() && request.Text() == text && NUL !in hostText && http10 == Version(s)
      requires |text| + |hostText| + 100 < REQUEST_SIZE
      modifies request.data
      ensures request.Text() == text + AgentLine(s) + HostLine(s, hostText)
    {
      hide Version;
      if http10 > 0 {
        AgentNoNul();
        request.Cat(AGENT + "\r\n");
      }
      assert request.Text() == text + AgentLine(s);
      if !s.proxy && http10 > 0 {
        request.Cat("Host: ");
        request.Cat(hostText);
        request.Cat("\r\n");
      }
    }

    method PrintEnd(s: Settings, text: seq<char>)
      requires Valid() && request.Text() == text && http10 == Version(s) && |text| + 100 < REQUEST_SIZE
      modifies request.data
      ensures request.Text() == text + PragmaLine(s) + CloseLine(s) + LastLine(s)
    {
      hide Version;
      if s.reload && s.proxy {
        request.Cat("Pragma: no-cache\r\n");
      }
      assert request.Text() == text + PragmaLine(s);
      if http10 > 1 {
        request.Cat("Connection: close\r\n");
      }
      assert request.Text() == text + PragmaLine(s) + CloseLine(s);
      if http10 > 0 {
        request.Cat("\r\n");
      }
    }
  }

  lemma AgentNoNul()
    ensures NUL !in AGENT + "\r\n" && |AGENT| == 24
  {
  }

  // ---- what the request is, in its own terms ----

  predicate SchemeAt(url: seq<char>, i: nat) {
    i + 3 <= |url| && url[i..i + 3] == "://"
  }

  lemma {:induction false} SchemeMeans(url: seq<char>, i: nat)
    requires i <= |url|
    ensures var j := SchemeEnd(url, i);
            if j == |url| then forall k: nat :: i <= k ==> !SchemeAt(url, k)
            else SchemeAt(url, j) && forall k: nat :: i <= k < j ==> !SchemeAt(url, k)
    decreases |url| - i
  {
    if i + 3 <= |url| && url[i..i + 3] != "://" {
      SchemeMeans(url, i + 1);
    }
  }

  /** The URLs that are refused, each for the first test that fails, and the parts of the others. */
  lemma AnalyseMeans(s: Settings, url: seq<char>)
    ensures var direct := s.proxy || HasName(url, "http://");
            match Analyse(s, url)
            case Err(NotAUrl) => forall k: nat :: !SchemeAt(url, k)
            case Err(TooLong) => (exists k: nat :: SchemeAt(url, k)) && |url| > 1500
            case Err(NotHttp) => (exists k: nat :: SchemeAt(url, k)) && |url| <= 1500 && !direct
            case Err(NoSlash) =>
              && |url| <= 1500 && direct
              && exists k: nat ::
                   SchemeAt(url, k) && (forall m: nat :: m < k ==> !SchemeAt(url, m)) && '/' !in url[k + 3..]
            case Ok(p) =>
              && |url| <= 1500 && direct && 3 <= p.host <= p.colon <= p.slash < |url|
              && SchemeAt(url, p.host - 3) && (forall m: nat :: m < p.host - 3 ==> !SchemeAt(url, m))
              && '/' !in url[p.host..p.slash] && url[p.slash] == '/'
              && ':' !in url[p.host..p.colon] && (p.colon < p.slash ==> url[p.colon] == ':')
  {
    SchemeMeans(url, 0);
    StartsMeans(url, "http://");
    hide StartsNoCase, HasName, SchemeEnd;
    var i := SchemeEnd(url, 0);
    if i < |url| {
      assert SchemeAt(url, i);
      hide SchemeAt;
    }
  }

  /** The version is raised to what the request needs and no further: 1.0 for HEAD and for a reload through a proxy,
      1.1 for OPTIONS and TRACE. */
  lemma VersionMeans(s: Settings, v: nat)
    ensures s.http10 <= Version(s)
    ensures s.verb == Head || (s.reload && s.proxy) ==> Version(s) >= 1
    ensures s.verb == Options || s.verb == Trace ==> Version(s) >= 2
    ensures (s.http10 <= v && (s.verb == Head || (s.reload && s.proxy) ==> v >= 1)
             && (s.verb == Options || s.verb == Trace ==> v >= 2)) ==> Version(s) <= v
  {
  }

  /** The lines of a request for `target` in version `v`. */
  function RequestLines(s: Settings, v: nat, target: seq<char>, host: seq<char>): seq<seq<char>> {
    var name := match s.verb case Get => "GET" case Head => "HEAD" case Options => "OPTIONS" case Trace => "TRACE";
    [name + " " + target + if v == 1 then " HTTP/1.0" else if v == 2 then " HTTP/1.1" else ""]
    + if v == 0 then [] else HeadersFor(s, v, host) + [""]
  }

  /** The headers it calls for. */
  function HeadersFor(s: Settings, v: nat, host: seq<char>): seq<seq<char>> {
    ["User-Agent: WebBench 1.5"]
    + (if s.proxy then [] else ["Host: " + host])
    + (if s.reload && s.proxy then ["Pragma: no-cache"] else [])
    + (if v > 1 then ["Connection: close"] else [])
  }

  /** For all settings the request is its first line and, from version 1.0 on, exactly the headers called for and one
      blank line at its end; before that it is the first line alone. */
  lemma BuiltMeans(s: Settings, target: seq<char>, host: seq<char>)
    ensures Built(s, target, host) == Print(RequestLines(s, Version(s), target, host))
  {
    var v := Version(s);
    VersionMeans(s, v);
    hide Version;
    var (first, lines) := (FirstLine(s, target), RequestLines(s, v, target, host));
    FirstIs(s, target, host);
    if v == 0 {
      assert lines == [first];
      OneLinePrint(first);
      assert Built(s, target, host) == first + "\r\n";
    } else {
      HeadersPrint(s, v, host);
      hide Print, FirstLine, AgentLine, HostLine, PragmaLine, CloseLine, LastLine;
      BuiltStarts(s, target, host);
      PrintCons(first, lines[1..]);
    }
  }

  lemma PrintCons(l: seq<char>, more: seq<seq<char>>)
    ensures Print([l] + more) == l + "\r\n" + Print(more)
  {
    assert ([l] + more)[1..] == more;
  }

  lemma FirstIs(s: Settings, target: seq<char>, host: seq<char>)
    ensures var lines := RequestLines(s, Version(s), target, host); lines == [FirstLine(s, target)] + lines[1..]
  {
    hide Version;
  }

  lemma HeadersPrint(s: Settings, v: nat, host: seq<char>)
    requires v == Version(s) > 0
    ensures AgentLine(s) + HostLine(s, host) + PragmaLine(s) + CloseLine(s) + LastLine(s)
         == Print(HeadersFor(s, v, host) + [""])
  {
    hide Version;
    var a := ["User-Agent: WebBench 1.5"];
    var h := if s.proxy then [] else ["Host: " + host];
    var p := if s.reload && s.proxy then ["Pragma: no-cache"] else [];
    var c := if v > 1 then ["Connection: close"] else [];
    LinePrints(s, v, host);
    hide Print, AgentLine, HostLine, PragmaLine, CloseLine, LastLine;
    PlacedConcat(0, a, h);
    PlacedConcat(0, a + h, p);
    PlacedConcat(0, a + h + p, c);
    PlacedConcat(0, a + h + p + c, [""]);
  }

  lemma LinePrints(s: Settings, v: nat, host: seq<char>)
    requires v == Version(s) > 0
    ensures Print(["User-Agent: WebBench 1.5"]) == AgentLine(s)
    ensures Print(if s.proxy then [] else ["Host: " + host]) == HostLine(s, host)
    ensures Print(if s.reload && s.proxy then ["Pragma: no-cache"] else []) == PragmaLine(s)
    ensures Print(if v > 1 then ["Connection: close"] else []) == CloseLine(s)
    ensures Print([""]) == LastLine(s)
  {
    hide Version;
    OneLinePrint("User-Agent: WebBench 1.5");
    OneLinePrint("Host: " + host);
    OneLinePrint("Pragma: no-cache");
    OneLinePrint("Connection: close");
    OneLinePrint("");
  }

  // ---- the server reads the request ----

  /** A first line that is not a request line is refused, whatever follows. */
  lemma Rejects(line: seq<char>, rest: seq<char>)
    requires Plain(line) && RequestOf(line).None?
    ensures Process(Arrive(FRESH, line + "\r\n" + rest)).1 == BadRequest
  {
    hide Process, Lines, RequestOf, CStr;
    var msg := line + "\r\n" + rest;
    OnePrinted(msg, 0, line);
    ParserRefines(msg);
  }

  /** A direct URL: a host part with an optional port, and a path, free of bytes a request cannot carry. */
  predicate DirectUrl(hostPort: seq<char>, path: seq<char>) {
    && Plain(hostPort) && Plain(path) && path != [] && path[0] == '/'
    && '/' !in hostPort && ' ' !in hostPort && '\t' !in hostPort && ' ' !in path && '\t' !in path
    && |hostPort| + |path| <= 1493
  }

  const SCHEME := "http://"

  lemma DirectNoNul(hostPort: seq<char>, path: seq<char>)
    requires DirectUrl(hostPort, path)
    ensures NUL !in SCHEME + hostPort + path
  {
    assert NUL !in SCHEME;
  }

  lemma SchemeFound(rest: seq<char>)
    ensures SchemeEnd(SCHEME + rest, 0) == 4 && StartsNoCase(SCHEME + rest, SCHEME)
  {
    hide StartsNoCase;
    var url := SCHEME + rest;
    Starting(SCHEME, rest);
    forall k | 0 <= k < 4
      ensures url[k] != ':'
    {
      assert url[k] == SCHEME[k];
    }
    assert url[4..7] == SCHEME[4..7] == "://";
    NoScheme(url, 0, 4);
  }

  lemma {:induction false} NoScheme(url: seq<char>, i: nat, j: nat)
    requires i <= j && j + 3 <= |url| && url[j..j + 3] == "://" && forall k :: i <= k < j ==> url[k] != ':'
    ensures SchemeEnd(url, i) == j
    decreases j - i
  {
    if i < j {
      assert url[i..i + 3][0] == url[i];
      NoScheme(url, i + 1, j);
    }
  }

  lemma DirectParts(s: Settings, hostPort: seq<char>, path: seq<char>)
    requires DirectUrl(hostPort, path) && !s.proxy
    ensures var url := SCHEME + hostPort + path;
            var p := Parts(7, 7 + Find(hostPort, 0, {':'}), 7 + |hostPort|);
            && Analyse(s, url) == Ok(p)
            && Target(s, url, p) == path && HostOf(s, url, p) == hostPort[..Find(hostPort, 0, {':'})]
  {
    hide StartsNoCase, SchemeEnd, Plain, Find, Analyse;
    var url := SCHEME + hostPort + path;
    assert url == SCHEME + (hostPort + path);
    SchemeFound(hostPort + path);
    MarksFound(SCHEME, hostPort, path);
    DirectSlices(hostPort, path, Find(hostPort, 0, {':'}));
    assert |SCHEME| == 7;
    hide SCHEME;
    AnalyseIs(s, url, 7 + |hostPort|);
  }

  /** The first slash behind `a`, and the colon if there is one ahead of it. */
  lemma MarksFound(a: seq<char>, hostPort: seq<char>, path: seq<char>)
    requires '/' !in hostPort && path != [] && path[0] == '/'
    ensures var (t, slash) := (a + hostPort + path, |a| + |hostPort|);
            && Find(t, |a|, {'/'}) == slash
            && (var c := Find(t, |a|, {':'}); (if c < slash then c else slash) == |a| + Find(hostPort, 0, {':'}))
  {
    hide Find;
    var (t, slash) := (a + hostPort + path, |a| + |hostPort|);
    FoundAfter(a, hostPort, path, '/');
    FoundAfter(a, hostPort, path, ':');
    FindIs(hostPort, 0, {'/'}, |hostPort|);
    assert t[slash] == path[0];
    FindIs(t, |a|, {'/'}, slash);
  }

  lemma AnalyseIs(s: Settings, url: seq<char>, slash: nat)
    requires !s.proxy && SchemeEnd(url, 0) == 4 && StartsNoCase(url, SCHEME) && 7 <= slash < |url| <= 1500
    requires Find(url, 7, {'/'}) == slash
    ensures var colon := Find(url, 7, {':'});
            Analyse(s, url) == Ok(Parts(7, if colon < slash then colon else slash, slash))
  {
    hide StartsNoCase, SchemeEnd, Find;
  }

  lemma DirectSlices(hostPort: seq<char>, path: seq<char>, c: nat)
    requires c <= |hostPort|
    ensures var url := SCHEME + hostPort + path; url[7 + |hostPort|..] == path && url[7..7 + c] == hostPort[..c]
  {
  }

  /** A search that starts behind `a` finds what `b` holds, or goes on behind it. */
  lemma FoundAfter(a: seq<char>, b: seq<char>, c: seq<char>, x: char)
    ensures var k := Find(b, 0, {x});
            (k < |b| ==> Find(a + b + c, |a|, {x}) == |a| + k) && (k == |b| ==> Find(a + b + c, |a|, {x}) >= |a| + |b|)
  {
    var t := a + b + c;
    var k := Find(b, 0, {x});
    forall m | |a| <= m < |a| + k
      ensures t[m] != x
    {
      assert t[m] == b[m - |a|];
    }
    if k < |b| {
      FindIs(t, |a|, {x}, |a| + k);
    }
  }

  /** The headers of a direct HTTP/1.1 request. */
  function DirectHeaders(host: seq<char>): seq<seq<char>> {
    [AGENT, HOST + " " + host, LINGER + " " + "close"]
  }

  lemma BuiltIsMessage(s: Settings, path: seq<char>, host: seq<char>)
    requires s.verb == Get && Version(s) == 2 && !s.proxy
    ensures Built(s, path, host) == Message(RequestText("GET", path), DirectHeaders(host), [])
  {
    hide Version, Built, Print;
    var line := RequestText("GET", path);
    var more := DirectHeaders(host) + [""];
    BuiltMeans(s, path, host);
    LinesOfGet(s, path, host);
    OneLinePrint(line);
    PrintCons(line, more);
    assert line + "\r\n" + Print(more) + [] == line + "\r\n" + Print(more);
  }

  lemma LinesOfGet(s: Settings, path: seq<char>, host: seq<char>)
    requires s.verb == Get && !s.proxy
    ensures RequestLines(s, 2, path, host) == [RequestText("GET", path)] + (DirectHeaders(host) + [""])
  {
    var (lines, first) := (RequestLines(s, 2, path, host), RequestText("GET", path));
    assert "GET" + " " + path + " HTTP/1.1" == first;
    assert HeadersFor(s, 2, host) == DirectHeaders(host) by {
      assert "Host: " + host == HOST + " " + host && "Connection: close" == LINGER + " " + "close";
    }
    hide HeadersFor, DirectHeaders, RequestText;
    assert lines == [first] + (HeadersFor(s, 2, host) + [""]);
  }

  lemma VerbNames(v: Verb)
    ensures var name := VerbName(v); Plain(name) && ' ' !in name && '\t' !in name
    ensures MethodOf(VerbName(v)) == if v == Get then Some(GET) else None
  {
    EqNoCaseRefl("GET");
  }

  lemma OldVersion()
    ensures !EqNoCase("HTTP/1.0", "HTTP/1.1")
  {
    var (a, b) := ("HTTP/1.0", "HTTP/1.1");
    assert a[7] == '0' && b[7] == '1';
    DiffersAt(a, b, 7);
  }

  lemma DiffersAt(a: seq<char>, b: seq<char>, i: nat)
    requires i < |a| && i < |b| && Lower(a[i]) != Lower(b[i])
    ensures !EqNoCase(a, b)
  {
    EqNoCaseAt(a, b);
  }

  lemma SuffixPlain(h: nat)
    ensures Plain(VersionSuffix(h))
  {
    if h == 1 {
      assert Plain(" HTTP/1.0");
    } else if h == 2 {
      assert Plain(" HTTP/1.1");
    }
  }

  lemma FirstLinePlain(s: Settings, path: seq<char>)
    requires Plain(path)
    ensures Plain(FirstLine(s, path))
  {
    hide Version, Plain;
    VerbNames(s.verb);
    SuffixPlain(Version(s));
    SpacePlain();
    PlainConcat(VerbName(s.verb), " ");
    PlainConcat(VerbName(s.verb) + " ", path);
    PlainConcat(VerbName(s.verb) + " " + path, VersionSuffix(Version(s)));
  }

  lemma SpacePlain()
    ensures Plain(" ") && Plain("")
  {
  }

  /** Only a GET under HTTP/1.1 gives a line the server takes for a request line. */
  lemma RefusedLine(s: Settings, path: seq<char>)
    requires Plain(path) && ' ' !in path && '\t' !in path && path != [] && path[0] == '/'
    requires s.verb != Get || Version(s) != 2
    ensures RequestOf(FirstLine(s, path)).None?
  {
    hide Version, RequestOf, MethodOf, EqNoCase, Plain, VerbName;
    var (name, h) := (VerbName(s.verb), Version(s));
    VerbNames(s.verb);
    OldVersion();
    if h == 1 {
      RequestPrinted(name, path, "HTTP/1.0");
      assert FirstLine(s, path) == name + " " + path + " " + "HTTP/1.0";
    } else if h == 2 {
      RequestPrinted(name, path, "HTTP/1.1");
      assert FirstLine(s, path) == name + " " + path + " " + "HTTP/1.1";
    } else {
      assert FirstLine(s, path) == name + " " + path;
      NoVersion(name, path);
    }
  }

  lemma NoVersion(name: seq<char>, path: seq<char>)
    requires ' ' !in name && '\t' !in name && ' ' !in path && '\t' !in path
    ensures RequestOf(name + " " + path).None?
  {
    hide MethodOf, EqNoCase, PathOf;
    FindBlank(name, path);
    assert (name + " " + path)[|name| + 1..] == path;
    FindIs(path, 0, BLANK, |path|);
  }

  lemma HeadersRead(at: nat, host: seq<char>)
    requires Plain(host) && NoLead(host)
    ensures var headers := DirectHeaders(host);
            var g := Fold(NO_FIELDS, Placed(at, headers));
            && AllPlain(headers) && (forall k :: 0 <= k < 3 ==> headers[k] != [])
            && g.contentLength == 0 && !g.linger && g.host.Some? && g.host.value.text == host
  {
    hide Classify, Fold, Placed, Plain, EqNoCase, Atoi;
    hide AGENT, HOST, LINGER;
    var headers := DirectHeaders(host);
    var lines := Placed(at, headers);
    NamesPlain();
    PlainConcat(HOST + " ", host);
    OtherPrinted(AGENT);
    HostPrinted(host);
    LingerPrinted("close");
    EqNoCaseRefl("close");
    LastWins(NO_FIELDS, lines, 1);
    LastWins(NO_FIELDS, lines, 2);
    AbsentKeeps(NO_FIELDS, lines);
  }

  lemma NamesPlain()
    ensures Plain(AGENT) && AGENT != [] && Lower(AGENT[0]) !in {'c', 'h'}
    ensures Plain(HOST + " ") && Plain(LINGER + " " + "close")
  {
    AgentPlain();
    PlainConcat(LINGER, " ");
    PlainConcat(LINGER + " ", "close");
  }

  lemma AgentPlain()
    ensures Plain(AGENT)
  {
  }

  /** What the server makes of the request text for a direct URL: it takes it exactly when it is a GET under
      HTTP/1.1, and then reads the path, the host without its port, and no keep-alive; else it refuses it. */
  ghost predicate ServedAs(s: Settings, hostPort: seq<char>, path: seq<char>, text: seq<char>) {
    var host := hostPort[..Find(hostPort, 0, {':'})];
    var (t, code) := Process(Arrive(FRESH, text));
    && (s.verb == Get && Version(s) == 2 ==>
          && code == GetRequest && t.verb == GET && !t.linger && t.contentLength == 0
          && t.url.At? && t.url.i <= |t.data| && CStr(t.data, t.url.i) == path
          && t.host.At? && t.host.i <= |t.data| && CStr(t.data, t.host.i) == host)
    && (!(s.verb == Get && Version(s) == 2) ==> code == BadRequest)
  }

  /** The round trip between the two programs, for the request text of every direct URL and all settings. */
  lemma RoundTrip(s: Settings, hostPort: seq<char>, path: seq<char>)
    requires DirectUrl(hostPort, path) && !s.proxy
    ensures var url := SCHEME + hostPort + path;
            && Analyse(s, url).Ok?
            && (var p := Analyse(s, url).value;
                var text := Built(s, Target(s, url, p), HostOf(s, url, p));
                |text| < REQUEST_SIZE && ServedAs(s, hostPort, path, text))
  {
    hide Process, Analyse, Plain, CStr, Fold, Placed, RequestOf, StringAt, Message, Built, Version;
    var url := SCHEME + hostPort + path;
    var host := hostPort[..Find(hostPort, 0, {':'})];
    DirectParts(s, hostPort, path);
    var p := Analyse(s, url).value;
    BuiltFits(s, url, p);
    PrefixPlain(hostPort, Find(hostPort, 0, {':'}));
    if s.verb == Get && Version(s) == 2 {
      BuiltIsMessage(s, path, host);
      RequestTextIs(GET, path);
      HeadersRead(|RequestText("GET", path)| + 2, host);
      ReadsMessage(RequestText("GET", path), DirectHeaders(host), []);
      var t := Process(Arrive(FRESH, Built(s, path, host))).0;
      StringInside(t.data, t.host.i, host, t.start);
    } else {
      FirstLinePlain(s, path);
      RefusedLine(s, path);
      BuiltStarts(s, path, host);
      Rejects(FirstLine(s, path), AgentLine(s) + HostLine(s, host) + PragmaLine(s) + CloseLine(s) + LastLine(s));
    }
  }

  lemma StringInside(d: seq<char>, i: nat, t: seq<char>, limit: nat)
    requires StringAt(d, i, t, limit)
    ensures i <= |d| && CStr(d, i) == t
  {
  }

  lemma PrefixPlain(l: seq<char>, k: nat)
    requires Plain(l) && k <= |l| && ' ' !in l && '\t' !in l
    ensures Plain(l[..k]) && NoLead(l[..k])
  {
  }

  lemma BuiltStarts(s: Settings, path: seq<char>, host: seq<char>)
    ensures Built(s, path, host) == FirstLine(s, path) + "\r\n"
              + (AgentLine(s) + HostLine(s, host) + PragmaLine(s) + CloseLine(s) + LastLine(s))
  {
    hide FirstLine, AgentLine, HostLine, PragmaLine, CloseLine, LastLine;
  }
}
