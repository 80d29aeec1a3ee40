/**
 What every call of process_read keeps: no CR or LF stays below m_checkedidx.  Hence the branch of
 parse_line that completes a line at its LF never runs, and a bare CR or LF stops the parser for good.
 */
module ParserInvariants {
  import opened CString
  import opened HttpParse

  ghost predicate Clean(s: Conn) {
    Ordered(s) && forall i :: 0 <= i < s.checked ==> s.data[i] !in BREAK
  }

  /** `e` is `d` with some bytes overwritten by NUL. */
  ghost predicate Blots(d: seq<char>, e: seq<char>) {
    |d| == |e| && forall i :: 0 <= i < |d| ==> e[i] == d[i] || e[i] == NUL
  }

  lemma CutVersionBlots(c: Cut)
    requires c.url.At? && c.url.i <= |c.data|
    ensures Blots(c.data, CutVersion(c).data)
  {
    hide EqNoCase, StartsNoCase, CStr, SlashIn;
  }

  lemma CutRequestBlots(d: seq<char>, text: nat, verb: Method, version: Ptr)
    requires text <= |d|
    ensures Blots(d, CutRequest(d, text, verb, version).data)
  {
    hide EqNoCase, CStr, CutVersion;
    var blank := BlankIn(d, text);
    if blank.At? {
      var c := Cut(d[blank.i := NUL], verb, At(blank.i + 1), version, NoRequest);
      CutVersionBlots(c.(verb := GET));
      CutVersionBlots(c.(verb := POST));
    }
  }

  lemma DispatchClean(s: Conn)
    requires Clean(s) && s.state != Content
    ensures Clean(Dispatch(s).0)
  {
    hide CutRequest, Classify, CStr, EqNoCase, Atoi;
    CutRequestBlots(s.data, s.start, s.verb, s.version);
  }

  lemma ParseLineClean(s: Conn)
    requires Clean(s)
    ensures Clean(ParseLine(s).0.(state := RequestLine))
    ensures ParseLine(s).0 == s.(data := ParseLine(s).0.data, checked := ParseLine(s).0.checked)
    ensures ParseLine(s).1 != LineOk ==> ParseLine(s).0.data == s.data
  {
  }

  /** Every call of process_read keeps the bytes below the cursor free of CR and LF. */
  lemma {:induction false} CleanKept(s: Conn)
    requires Clean(s)
    ensures Clean(Process(s).0)
    decreases |s.data| - s.checked, if s.state == Content then 0 else 1
  {
    hide CutLine, CutRequest, Classify, CStr, EqNoCase, Atoi;
    if s.state != Content {
      ParseLineClean(s);
      var (s1, status) := ParseLine(s);
      if status == LineOk {
        DispatchClean(s1);
        CleanKept(Dispatch(s1).0);
      }
    }
  }

  /** process_read with a parse_line that fails at every LF. */
  function ProcessWithoutLf(s: Conn): (Conn, Code)
    requires Ordered(s)
    decreases |s.data| - s.checked, if s.state == Content then 0 else 1
  {
    if s.state == Content then ParseContent(s, s.start)
    else
      var k := Find(s.data, s.checked, BREAK);
      if k < |s.data| && s.data[k] == '\n' then (s.(checked := k), NoRequest)
      else
        var (s1, status) := ParseLine(s);
        if status != LineOk then (s1, NoRequest)
        else
          var (s2, code) := Dispatch(s1);
          if code != NoRequest then (s2, code) else ProcessWithoutLf(s2)
  }

  /** The branch that completes a line at its LF is dead code. */
  lemma {:induction false} LfBranchIsDead(s: Conn)
    requires Clean(s)
    ensures Process(s) == ProcessWithoutLf(s)
    decreases |s.data| - s.checked, if s.state == Content then 0 else 1
  {
    hide CutRequest, Classify, CStr, EqNoCase, Atoi, Dispatch;
    if s.state != Content {
      ParseLineClean(s);
      var (s1, status) := ParseLine(s);
      if status == LineOk {
        DispatchClean(s1);
        LfBranchIsDead(Dispatch(s1).0);
      }
    }
  }

  /** The cursor stands at a CR or LF that is not part of a CRLF. */
  ghost predicate AtBareBreak(s: Conn) {
    && Clean(s) && s.state != Content && s.checked < |s.data|
    && (s.data[s.checked] == '\n'
        || (s.data[s.checked] == '\r' && s.checked + 1 < |s.data| && s.data[s.checked + 1] != '\n'))
  }

  /** A bare CR or LF is absorbing: whatever arrives, the parser neither moves nor answers. */
  lemma BareBreakAbsorbs(s: Conn, q: seq<char>)
    requires AtBareBreak(s)
    ensures Process(Arrive(s, q)) == (Arrive(s, q), NoRequest) && AtBareBreak(Arrive(s, q))
  {
    hide Dispatch;
    FindIs(s.data + q, s.checked, BREAK, s.checked);
  }

  /** The only reasons for process_read to return NO_REQUEST. */
  lemma {:induction false} WaitsOrStuck(s: Conn)
    requires Clean(s) && Process(s).1 == NoRequest
    ensures var t := Process(s).0;
            || (t.state == Content && |t.data| < t.checked + t.contentLength)
            || (t.state != Content && t.checked == |t.data|)
            || (t.state != Content && t.checked + 1 == |t.data| && t.data[t.checked] == '\r')
            || AtBareBreak(t)
    decreases |s.data| - s.checked, if s.state == Content then 0 else 1
  {
    hide CutRequest, Classify, CStr, EqNoCase, Atoi, Dispatch;
    if s.state != Content {
      ParseLineClean(s);
      var (s1, status) := ParseLine(s);
      if status == LineOk {
        DispatchClean(s1);
        WaitsOrStuck(Dispatch(s1).0);
      }
    }
  }
}
