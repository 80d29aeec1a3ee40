/**
 process_read may be called after every arrival of bytes.  However the byte stream is split, the calls
 end in the same fields, buffer and answer as one call on all the bytes that had arrived by then.
 */
module Chunks {
  import opened CString
  import opened HttpParse

  /** Bytes behind the scanned part do not change what a search found. */
  lemma FindInLonger(d: seq<char>, q: seq<char>, i: nat, cs: set<char>)
    requires i <= |d|
    ensures Find(d, i, cs) < |d| ==> Find(d + q, i, cs) == Find(d, i, cs)
    ensures Find(d, i, cs) == |d| ==> Find(d + q, i, cs) == Find(d + q, |d|, cs)
  {
    var j := Find(d, i, cs);
    if j < |d| {
      FindIs(d + q, i, cs, j);
    } else {
      FindIs(d + q, i, cs, Find(d + q, |d|, cs));
    }
  }

  /** A C string that is terminated by `end` does not see the bytes that arrive later. */
  lemma CStrInLonger(d: seq<char>, q: seq<char>, i: nat, end: nat)
    requires i <= end < |d| && d[end] == NUL
    ensures CStr(d + q, i) == CStr(d, i) && i + |CStr(d, i)| <= end
  {
    FindInLonger(d, q, i, {NUL});
    assert d[i..Find(d, i, {NUL})] == (d + q)[i..Find(d, i, {NUL})];
  }

  /** A line that is complete stays cut as it was; an incomplete one is taken up where scanning stopped. */
  lemma CutLineInLonger(d: seq<char>, q: seq<char>, i: nat)
    requires i <= |d|
    ensures var (d', k, status) := CutLine(d, i);
            if status == LineOk then CutLine(d + q, i) == (d' + q, k, LineOk)
            else d' == d && CutLine(d + q, i) == CutLine(d + q, k)
  {
    FindInLonger(d, q, i, BREAK);
    var k := Find(d, i, BREAK);
    FindIs(d + q, k, BREAK, Find(d + q, i, BREAK));
    if k < |d| {
      if d[k] == '\r' && k + 1 < |d| {
        assert d[k := NUL][k + 1 := NUL] + q == (d + q)[k := NUL][k + 1 := NUL];
      }
      if d[k] == '\n' && k > 1 {
        assert d[k - 1 := NUL][k := NUL] + q == (d + q)[k - 1 := NUL][k := NUL];
      }
    }
  }

  lemma SearchInLonger(d: seq<char>, q: seq<char>, i: nat, end: nat)
    requires i <= end < |d| && d[end] == NUL
    ensures BlankIn(d + q, i) == BlankIn(d, i) && SlashIn(d + q, i) == SlashIn(d, i)
    ensures BlankIn(d, i).At? ==> BlankIn(d, i).i < end
  {
    FindInLonger(d, q, i, BLANK + {NUL});
    FindInLonger(d, q, i, {'/', NUL});
  }

  lemma CutTargetInLonger(c: Cut, q: seq<char>, end: nat)
    requires c.url.At? && c.url.i <= end < |c.data| && c.data[end] == NUL
    ensures CutTarget(c.(data := c.data + q)) == CutTarget(c).(data := c.data + q)
  {
    hide EqNoCase, StartsNoCase, CStr, SlashIn;
    CStrInLonger(c.data, q, c.url.i, end);
    if StartsNoCase(CStr(c.data, c.url.i), "http://") {
      SearchInLonger(c.data, q, c.url.i + 7, end);
    }
  }

  lemma CutVersionInLonger(c: Cut, q: seq<char>, end: nat)
    requires c.url.At? && c.url.i <= end < |c.data| && c.data[end] == NUL
    ensures CutVersion(c.(data := c.data + q)) == CutVersion(c).(data := CutVersion(c).data + q)
  {
    hide EqNoCase, CStr, BlankIn, CutTarget;
    SearchInLonger(c.data, q, c.url.i, end);
    var blank := BlankIn(c.data, c.url.i);
    if blank.At? {
      var c2 := c.(data := c.data[blank.i := NUL], version := At(blank.i + 1));
      assert c2.data + q == (c.data + q)[blank.i := NUL];
      CStrInLonger(c2.data, q, c2.version.i, end);
      CutTargetInLonger(c2, q, end);
    }
  }

  lemma CutRequestInLonger(d: seq<char>, q: seq<char>, text: nat, end: nat, verb: Method, version: Ptr)
    requires text <= end < |d| && d[end] == NUL
    ensures var c := CutRequest(d, text, verb, version);
            CutRequest(d + q, text, verb, version) == c.(data := c.data + q)
  {
    hide EqNoCase, CStr, BlankIn, CutVersion;
    SearchInLonger(d, q, text, end);
    var blank := BlankIn(d, text);
    if blank.At? {
      var c := Cut(d[blank.i := NUL], verb, At(blank.i + 1), version, NoRequest);
      assert c.data + q == (d + q)[blank.i := NUL];
      CStrInLonger(c.data, q, text, end);
      CutVersionInLonger(c.(verb := GET), q, end);
      CutVersionInLonger(c.(verb := POST), q, end);
    }
  }

  lemma DispatchInLonger(s: Conn, q: seq<char>)
    requires Ordered(s) && s.state != Content && s.start < s.checked && s.data[s.checked - 1] == NUL
    ensures var (s', code) := Dispatch(s); Dispatch(Arrive(s, q)) == (Arrive(s', q), code)
  {
    hide CutRequest, Classify, CStr, EqNoCase, Atoi;
    CutRequestInLonger(s.data, q, s.start, s.checked - 1, s.verb, s.version);
    CStrInLonger(s.data, q, s.start, s.checked - 1);
  }

  /** A call that stopped for want of bytes can be resumed when more have arrived. */
  lemma {:induction false} Resume(s: Conn, q: seq<char>)
    requires Ordered(s) && Process(s).1 == NoRequest
    ensures Process(Arrive(s, q)) == Process(Arrive(Process(s).0, q))
    decreases |s.data| - s.checked, if s.state == Content then 0 else 1
  {
    hide CutLine, CutRequest, Classify, CStr, EqNoCase, Atoi, PutNul;
    if s.state != Content {
      CutLineInLonger(s.data, q, s.checked);
      CutLineEndsInNul(s.data, s.checked);
      var (s1, status) := ParseLine(s);
      if status == LineOk {
        DispatchInLonger(s1, q);
        var (s2, code) := Dispatch(s1);
        Resume(s2, q);
      }
    }
  }

  /** An answer stays: whatever arrives behind the bytes that led to it, answer and fields are the same. */
  lemma {:induction false} AnswerStays(s: Conn, q: seq<char>)
    requires Ordered(s) && Process(s).1 != NoRequest
    ensures var (t, code) := Process(s);
            Process(Arrive(s, q)) == (t.(data := Process(Arrive(s, q)).0.data), code)
    decreases |s.data| - s.checked, if s.state == Content then 0 else 1
  {
    hide CutLine, CutRequest, Classify, CStr, EqNoCase, Atoi, PutNul;
    if s.state != Content {
      CutLineInLonger(s.data, q, s.checked);
      CutLineEndsInNul(s.data, s.checked);
      var (s1, status) := ParseLine(s);
      if status == LineOk {
        DispatchInLonger(s1, q);
        var (s2, code) := Dispatch(s1);
        if code == NoRequest {
          AnswerStays(s2, q);
        }
      }
    }
  }

  lemma CutLineEndsInNul(d: seq<char>, i: nat)
    requires i <= |d|
    ensures var (d', k, status) := CutLine(d, i); status == LineOk ==> d'[k - 1] == NUL
  {
  }

  function Flatten(chunks: seq<seq<char>>): seq<char> {
    if chunks == [] then [] else chunks[0] + Flatten(chunks[1..])
  }

  /** The calls of process_read, one after each arrival, until one gives an answer: the last fields, the
      last answer and the number of arrivals consumed. */
  function Calls(s: Conn, chunks: seq<seq<char>>): (r: (Conn, Code, nat))
    requires Ordered(s) && chunks != []
    ensures Ordered(r.0) && 1 <= r.2 <= |chunks|
    ensures r.2 < |chunks| ==> r.1 != NoRequest
    decreases |chunks|
  {
    var (s', code) := Process(Arrive(s, chunks[0]));
    if code != NoRequest || |chunks| == 1 then (s', code, 1)
    else
      var (t, code', n) := Calls(s', chunks[1..]);
      (t, code', n + 1)
  }

  /** Independence of chunk boundaries. */
  lemma {:induction false} ChunksDoNotMatter(s: Conn, chunks: seq<seq<char>>)
    requires Ordered(s) && chunks != []
    ensures var (t, code, n) := Calls(s, chunks); (t, code) == Process(Arrive(s, Flatten(chunks[..n])))
    decreases |chunks|
  {
    hide Process;
    var (s', code) := Process(Arrive(s, chunks[0]));
    var (_, _, n) := Calls(s, chunks);
    assert chunks[..n][0] == chunks[0] && chunks[..n][1..] == chunks[1..][..n - 1];
    if code != NoRequest || |chunks| == 1 {
      assert chunks[0] + [] == chunks[0];
    } else {
      ChunksDoNotMatter(s', chunks[1..]);
      var rest := Flatten(chunks[..n][1..]);
      Resume(Arrive(s, chunks[0]), rest);
      assert s.data + chunks[0] + rest == s.data + (chunks[0] + rest);
    }
  }

  /** Two ways of splitting one stream, both read to the end, agree on everything. */
  lemma SplitsAgree(a: seq<seq<char>>, b: seq<seq<char>>)
    requires a != [] && b != [] && Flatten(a) == Flatten(b)
    requires Calls(FRESH, a).2 == |a| && Calls(FRESH, b).2 == |b|
    ensures Calls(FRESH, a).0 == Calls(FRESH, b).0 && Calls(FRESH, a).1 == Calls(FRESH, b).1
  {
    hide Process, Calls, Flatten;
    ChunksDoNotMatter(FRESH, a);
    ChunksDoNotMatter(FRESH, b);
    assert a[..|a|] == a && b[..|b|] == b;
  }
}
