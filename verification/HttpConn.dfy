/**
 The request side of http_conn: the read buffer, its cursors and the parsed fields, rewritten in
 place.  Every method is proved to compute the function of the same name in HttpParse.
 */
module HttpConn {
  import opened CString
  import opened HttpParse
  import Chunks

  class Connection {
    const readBuf: array<char>
    var readIdx: nat
    var checkedIdx: nat
    var startLine: nat
    var checkState: CheckState
    var verb: Method
    var url: Ptr
    var version: Ptr
    var host: Ptr
    var boundary: Ptr
    var contentLength: int
    var linger: bool

    /** The fields as a value. */
    function State(): (s: Conn)
      requires readIdx <= readBuf.Length
      reads this, readBuf
    {
      Conn(readBuf[..readIdx], checkedIdx, startLine, checkState, verb, url, version, host, boundary,
           contentLength, linger)
    }

    ghost predicate Valid()
      reads this, readBuf
    {
      && readIdx <= readBuf.Length
      && startLine <= checkedIdx <= readIdx && (checkState == Content ==> startLine == checkedIdx)
      && forall i :: readIdx <= i < readBuf.Length ==> readBuf[i] == NUL
    }

    /** init() on a buffer of `size` bytes. */
    constructor (size: nat)
      ensures Valid() && fresh(readBuf) && readBuf.Length == size && State() == FRESH
    {
      readBuf := new char[size](_ => NUL);
      readIdx, checkedIdx, startLine := 0, 0, 0;
      checkState, verb := RequestLine, GET;
      url, version, host, boundary := Null, Null, Null, Null;
      contentLength, linger := 0, false;
    }

    /** Bytes arrive at m_readidx. */
    method ReadBytes(bytes: seq<char>)
      requires Valid() && readIdx + |bytes| <= readBuf.Length
      modifies this`readIdx, readBuf
      ensures Valid() && State() == Arrive(old(State()), bytes)
    {
      forall i | 0 <= i < |bytes| {
        readBuf[readIdx + i] := bytes[i];
      }
      readIdx := readIdx + |bytes|;
      assert readBuf[..readIdx] == old(readBuf[..readIdx]) + bytes;
    }

    method ParseLine() returns (status: LineStatus)
      requires Valid() && checkState != Content
      modifies this`checkedIdx, readBuf
      ensures Valid() && (readBuf[..readIdx], checkedIdx, status) == CutLine(old(readBuf[..readIdx]), old(checkedIdx))
    {
      hide Find;
      ghost var d, from := readBuf[..readIdx], checkedIdx;
      while checkedIdx < readIdx
        invariant from <= checkedIdx <= readIdx && readBuf[..readIdx] == d
        invariant forall m :: from <= m < checkedIdx ==> d[m] !in BREAK
        invariant forall i :: readIdx <= i < readBuf.Length ==> readBuf[i] == NUL
      {
        var temp := readBuf[checkedIdx];
        ghost var k := checkedIdx;
        assert temp == d[k];
        if temp == '\r' {
          FindIs(d, from, BREAK, k);
          if checkedIdx + 1 == readIdx {
            return LineOpen;
          } else if readBuf[checkedIdx + 1] == '\n' {
            readBuf[checkedIdx] := NUL;
            checkedIdx := checkedIdx + 1;
            readBuf[checkedIdx] := NUL;
            checkedIdx := checkedIdx + 1;
            assert readBuf[..readIdx] == d[k := NUL][k + 1 := NUL];
            return LineOk;
          }
          return LineBad;
        } else if temp == '\n' {
          FindIs(d, from, BREAK, k);
          if checkedIdx > 1 && readBuf[checkedIdx - 1] == '\r' {
            readBuf[checkedIdx - 1] := NUL;
            readBuf[checkedIdx] := NUL;
            checkedIdx := checkedIdx + 1;
            assert readBuf[..readIdx] == d[k - 1 := NUL][k := NUL];
            return LineOk;
          }
          return LineBad;
        }
        checkedIdx := checkedIdx + 1;
      }
      FindIs(d, from, BREAK, readIdx);
      return LineOpen;
    }

    method ParseRequestLine(text: nat) returns (code: Code)
      requires Valid() && text <= readIdx && checkState == RequestLine
      modifies this`checkState, this`verb, this`url, this`version, readBuf
      ensures Valid()
      ensures Cut(readBuf[..readIdx], verb, url, version, code)
           == CutRequest(old(readBuf[..readIdx]), text, old(verb), old(version))
      ensures checkState == if code == NoRequest then Header else RequestLine
    {
      hide EqNoCase, CStr, BlankIn, CutVersion;
      ghost var d := readBuf[..readIdx];
      url := BlankIn(readBuf[..readIdx], text);
      if url.Null? {
        assert readBuf[..readIdx] == d;
        return BadRequest;
      }
      readBuf[url.i] := NUL;
      ghost var d1 := d[url.i := NUL];
      assert readBuf[..readIdx] == d1;
      url := At(url.i + 1);
      var name := CStr(readBuf[..readIdx], text);
      if EqNoCase(name, "GET") {
        verb := GET;
      } else if EqNoCase(name, "POST") {
        verb := POST;
      } else {
        assert readBuf[..readIdx] == d1;
        return BadRequest;
      }
      code := CheckVersion();
    }

    /** The middle part of parse_request_line: the second blank ends the target. */
    method CheckVersion() returns (code: Code)
      requires Valid() && checkState == RequestLine && url.At? && url.i <= readIdx
      modifies this`checkState, this`url, this`version, readBuf
      ensures Valid()
      ensures Cut(readBuf[..readIdx], verb, url, version, code)
           == CutVersion(old(Cut(readBuf[..readIdx], verb, url, version, NoRequest)))
      ensures checkState == if code == NoRequest then Header else RequestLine
    {
      hide EqNoCase, CStr, BlankIn, CutTarget;
      ghost var d := readBuf[..readIdx];
      version := BlankIn(readBuf[..readIdx], url.i);
      if version.Null? {
        assert readBuf[..readIdx] == d;
        return BadRequest;
      }
      readBuf[version.i] := NUL;
      ghost var d1 := d[version.i := NUL];
      assert readBuf[..readIdx] == d1;
      version := At(version.i + 1);
      if !EqNoCase(CStr(readBuf[..readIdx], version.i), "HTTP/1.1") {
        assert readBuf[..readIdx] == d1;
        return BadRequest;
      }
      code := CheckTarget();
    }

    /** The last test of parse_request_line: the target must be a path, perhaps behind "http://host". */
    method CheckTarget() returns (code: Code)
      requires Valid() && checkState == RequestLine && url.At? && url.i <= readIdx
      modifies this`checkState, this`url
      ensures Valid()
      ensures Cut(readBuf[..readIdx], verb, url, version, code)
           == CutTarget(old(Cut(readBuf[..readIdx], verb, url, version, NoRequest)))
      ensures checkState == if code == NoRequest then Header else RequestLine
    {
      hide EqNoCase, StartsNoCase, SlashIn, CStr;
      ghost var d := readBuf[..readIdx];
      if StartsNoCase(CStr(readBuf[..readIdx], url.i), "http://") {
        url := At(url.i + 7);
        url := SlashIn(readBuf[..readIdx], url.i);
      }
      assert readBuf[..readIdx] == d;
      if url.Null? || url.i == readIdx || readBuf[url.i] != '/' {
        return BadRequest;
      }
      checkState := Header;
      return NoRequest;
    }

    method ParseHeaders(text: nat) returns (code: Code)
      requires Valid() && text <= readIdx && checkState == Header && startLine == checkedIdx
      modifies this`checkState, this`linger, this`contentLength, this`host, this`boundary
      ensures Valid() && (State(), code) == HttpParse.ParseHeaders(old(State()), text)
    {
      hide Classify, EqNoCase, Atoi;
      ghost var s := State();
      var t := CStr(readBuf[..readIdx], text);
      match Classify(t) {
        case Blank =>
          if contentLength != 0 {
            checkState := Content;
            assert readBuf[..readIdx] == s.data;
            return NoRequest;
          }
          return GetRequest;
        case Linger(value) =>
          if EqNoCase(value, "close") {
            linger := false;
          } else {
            linger := true;
          }
        case Length(value) =>
          contentLength := Atoi(value);
        case HostName(value) =>
          host := At(text + |t| - |value|);
        case Multipart =>
          boundary := At(text);
          boundary := At(boundary.i + 44);
        case Other =>
      }
      assert readBuf[..readIdx] == s.data;
      return NoRequest;
    }

    /** Where parse_content puts its NUL must lie inside the array. */
    ghost predicate BodyFits(s: Conn) {
      (s.state == Content && |s.data| >= s.contentLength + s.checked)
      ==> 0 <= s.start + s.contentLength < readBuf.Length
    }

    method ParseContent(text: nat) returns (code: Code)
      requires Valid() && checkState == Content && text == startLine
      requires BodyFits(State())
      modifies readBuf
      ensures Valid() && (State(), code) == HttpParse.ParseContent(old(State()), text)
    {
      ghost var s := State();
      if readIdx >= contentLength + checkedIdx {
        readBuf[text + contentLength] := NUL;
        assert readBuf[..readIdx] == PutNul(s.data, text + contentLength);
        return GetRequest;
      }
      return NoRequest;
    }

    /** The switch of process_read for a complete line. */
    method TakeLine() returns (code: Code)
      requires Valid() && checkState != Content
      modifies this, readBuf
      ensures Valid() && readIdx == old(readIdx) && checkedIdx == old(checkedIdx)
      ensures (State(), code) == Dispatch(old(State()))
    {
      hide CutRequest, Classify, CStr, Atoi, EqNoCase;
      var text := startLine;
      startLine := checkedIdx;
      if checkState == RequestLine {
        code := ParseRequestLine(text);
      } else {
        code := ParseHeaders(text);
      }
    }

    /** process_read up to its call of do_request: the loop of the outer state machine. */
    method ProcessRead() returns (code: Code)
      requires Valid()
      requires BodyFits(Process(State()).0)
      modifies this, readBuf
      ensures Valid() && readIdx == old(readIdx)
      ensures (State(), code) == Process(old(State()))
    {
      hide CutLine, Dispatch, PutNul;
      ghost var result := Process(State());
      var lineStatus := LineOk;
      code := NoRequest;
      while checkState == Content || lineStatus == LineOk
        invariant Valid() && readIdx == old(readIdx)
        invariant lineStatus == LineOk
        invariant Process(State()) == result
        decreases readIdx - checkedIdx, if checkState == Content then 0 else 1
      {
        if checkState == Content {
          var text := startLine;
          startLine := checkedIdx;
          code := ParseContent(text);
          return;
        }
        lineStatus := ParseLine();
        if lineStatus != LineOk {
          return NoRequest;
        }
        code := TakeLine();
        if code != NoRequest {
          return;
        }
      }
    }

    /** Every arrival fits into the buffer, and so does the NUL behind a body. */
    ghost predicate ArrivalsFit(s: Conn, chunks: seq<seq<char>>)
      requires Ordered(s)
      decreases |chunks|
    {
      chunks != [] ==>
        var (t, code) := Process(Arrive(s, chunks[0]));
        && |s.data| + |chunks[0]| <= readBuf.Length && BodyFits(t)
        && (code == NoRequest ==> ArrivalsFit(t, chunks[1..]))
    }

    /** The calls that the event loop and the workers make: after each arrival process_read runs, until it
        gives an answer. */
    method Receive(chunks: seq<seq<char>>) returns (code: Code, n: nat)
      requires Valid() && chunks != [] && ArrivalsFit(State(), chunks)
      modifies this, readBuf
      ensures Valid() && (State(), code, n) == Chunks.Calls(old(State()), chunks)
    {
      hide Process;
      ghost var (s, result) := (State(), Chunks.Calls(State(), chunks));
      n := 0;
      code := NoRequest;
      while n < |chunks| && code == NoRequest
        invariant 0 <= n <= |chunks| && Valid()
        invariant code == NoRequest && n < |chunks| ==>
                    ArrivalsFit(State(), chunks[n..])
                    && (var (t, c, k) := Chunks.Calls(State(), chunks[n..]); result == (t, c, n + k))
        invariant code != NoRequest || n == |chunks| ==> result == (State(), code, n)
        decreases |chunks| - n
      {
        ghost var rest := chunks[n..];
        assert rest[0] == chunks[n] && rest[1..] == chunks[n + 1..];
        ReadBytes(chunks[n]);
        code := ProcessRead();
        n := n + 1;
      }
    }
  }
}
