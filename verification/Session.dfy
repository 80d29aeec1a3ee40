/**
 Several requests on one connection: where a request ends, what keep-alive answers, and what becomes of bytes
 that arrive before the answer to the request ahead of them.
 */
module Session {
  import opened CString
  import opened HttpParse
  import opened Reference
  import opened Printer
  import opened Chunks

  /** Where the request that `t` holds ends: behind its blank line, or behind its body. */
  function End(t: Conn): nat {
    t.checked + if t.contentLength > 0 then t.contentLength else 0
  }

  /** An answered request has arrived up to its end. */
  lemma {:induction false} EndInside(s: Conn)
    requires Ordered(s) && Process(s).1 == GetRequest
    ensures End(Process(s).0) <= |s.data|
    decreases |s.data| - s.checked, if s.state == Content then 0 else 1
  {
    hide CutLine, CutRequest, Classify, Atoi, PutNul;
    if s.state != Content {
      var s1 := ParseLine(s).0;
      var (s2, code) := Dispatch(s1);
      if code == NoRequest {
        EndInside(s2);
      }
    }
  }

  /** A line that is complete within the first bytes is complete without the later ones. */
  lemma CutLineInShorter(d: seq<char>, q: seq<char>, i: nat)
    requires i <= |d| && CutLine(d + q, i).2 == LineOk && CutLine(d + q, i).1 <= |d|
    ensures CutLine(d, i).2 == LineOk
  {
    FindInLonger(d, q, i, BREAK);
  }

  /** The bytes up to the end of a request are enough to answer it. */
  lemma {:induction false} AnsweredAtEnd(s: Conn, q: seq<char>)
    requires Ordered(s) && Process(Arrive(s, q)).1 == GetRequest && End(Process(Arrive(s, q)).0) <= |s.data|
    ensures Process(s).1 == GetRequest
    decreases |s.data| - s.checked, if s.state == Content then 0 else 1
  {
    hide CutLine, CutRequest, Classify, Atoi, PutNul, Dispatch;
    if s.state != Content {
      var long := ParseLine(Arrive(s, q)).0;
      CursorGrows(long, Dispatch(long));
      CutLineInShorter(s.data, q, s.checked);
      CutLineInLonger(s.data, q, s.checked);
      CutLineEndsInNul(s.data, s.checked);
      var s1 := ParseLine(s).0;
      DispatchInLonger(s1, q);
      var (s2, code) := Dispatch(s1);
      if code == NoRequest {
        AnsweredAtEnd(s2, q);
      }
    }
  }

  lemma CursorGrows(s: Conn, r: (Conn, Code))
    requires Ordered(s) && s.state != Content && r == Dispatch(s)
    ensures s.checked <= r.0.checked && (r.1 == NoRequest ==> s.checked <= Process(r.0).0.checked)
  {
    hide Dispatch;
  }

  /** A request ends at one byte: exactly the prefixes that reach it are answered. */
  lemma EndsOnce(d: seq<char>, k: nat)
    requires Process(Arrive(FRESH, d)).1 == GetRequest && k <= |d|
    ensures Process(Arrive(FRESH, d[..k])).1 == GetRequest <==> End(Process(Arrive(FRESH, d)).0) <= k
    ensures Process(Arrive(FRESH, d[..k])).1 != BadRequest
  {
    hide Process;
    var s := Arrive(FRESH, d[..k]);
    assert Arrive(s, d[k..]) == Arrive(FRESH, d) by { assert [] + d[..k] + d[k..] == [] + d; }
    if Process(s).1 != NoRequest {
      AnswerStays(s, d[k..]);
    }
    if Process(s).1 == GetRequest {
      EndInside(s);
    } else if End(Process(Arrive(FRESH, d)).0) <= k {
      AnsweredAtEnd(s, d[k..]);
    }
  }

  // ---- several requests ----

  /** An answer: the bytes in the read buffer when it was given, and the fields it was given for. */
  datatype Answer = Answer(raw: seq<char>, conn: Conn, code: Code)

  /** The answers on one connection, each sent before the next arrival.  With keep-alive init() then clears the
      read buffer and the fields, else the connection is closed. */
  function Answers(chunks: seq<seq<char>>): seq<Answer>
    decreases |chunks|
  {
    if chunks == [] then []
    else
      var (t, code, n) := Calls(FRESH, chunks);
      if code == NoRequest then []
      else [Answer(Flatten(chunks[..n]), t, code)] + if t.linger then Answers(chunks[n..]) else []
  }

  ghost predicate NoneEmpty(chunks: seq<seq<char>>) {
    forall k :: 0 <= k < |chunks| ==> chunks[k] != []
  }

  /** A request that arrives whole in `cuts` and with nothing behind it, and asks to keep the connection. */
  ghost predicate KeepsAlive(cuts: seq<seq<char>>) {
    && cuts != [] && NoneEmpty(cuts)
    && (var (t, code) := Process(Arrive(FRESH, Flatten(cuts)));
        code == GetRequest && t.linger && End(t) == |Flatten(cuts)|)
  }

  function AnswerTo(cuts: seq<seq<char>>): Answer {
    var (t, code) := Process(Arrive(FRESH, Flatten(cuts)));
    Answer(Flatten(cuts), t, code)
  }

  /** The calls stop at the first arrival that completes an answer. */
  lemma {:induction false} CallsUpTo(s: Conn, cuts: seq<seq<char>>, rest: seq<seq<char>>)
    requires Ordered(s) && cuts != [] && Process(Arrive(s, Flatten(cuts))).1 != NoRequest
    requires forall m :: 1 <= m < |cuts| ==> Process(Arrive(s, Flatten(cuts[..m]))).1 == NoRequest
    ensures var (t, code) := Process(Arrive(s, Flatten(cuts))); Calls(s, cuts + rest) == (t, code, |cuts|)
    decreases |cuts|
  {
    hide Process;
    assert (cuts + rest)[0] == cuts[0] && (cuts + rest)[1..] == cuts[1..] + rest;
    if |cuts| == 1 {
      assert cuts[1..] == [] && cuts[0] + [] == cuts[0];
    } else {
      var s1 := Arrive(s, cuts[0]);
      assert cuts[..1][0] == cuts[0] && cuts[..1][1..] == [] && cuts[0] + [] == cuts[0];
      assert Flatten(cuts[..1]) == cuts[0] + Flatten([]) == cuts[0];
      assert Process(s1).1 == NoRequest;
      var s' := Process(s1).0;
      ResumeFlat(s, cuts);
      forall m | 1 <= m < |cuts[1..]|
        ensures Process(Arrive(s', Flatten(cuts[1..][..m]))).1 == NoRequest
      {
        assert cuts[..m + 1][0] == cuts[0] && cuts[..m + 1][1..] == cuts[1..][..m];
        ResumeFlat(s, cuts[..m + 1]);
      }
      CallsUpTo(s', cuts[1..], rest);
    }
  }

  lemma ResumeFlat(s: Conn, cuts: seq<seq<char>>)
    requires Ordered(s) && cuts != [] && Process(Arrive(s, cuts[0])).1 == NoRequest
    ensures Process(Arrive(s, Flatten(cuts))) == Process(Arrive(Process(Arrive(s, cuts[0])).0, Flatten(cuts[1..])))
  {
    hide Process;
    Resume(Arrive(s, cuts[0]), Flatten(cuts[1..]));
    assert s.data + cuts[0] + Flatten(cuts[1..]) == s.data + Flatten(cuts);
  }

  lemma {:induction false} FlattenGrows(cuts: seq<seq<char>>, m: nat)
    requires m <= |cuts| && NoneEmpty(cuts)
    ensures Flatten(cuts[..m]) <= Flatten(cuts) && (m < |cuts| ==> |Flatten(cuts[..m])| < |Flatten(cuts)|)
  {
    if m > 0 {
      FlattenGrows(cuts[1..], m - 1);
      assert cuts[..m][0] == cuts[0] && cuts[..m][1..] == cuts[1..][..m - 1];
    }
  }

  lemma FirstAnswer(cuts: seq<seq<char>>, rest: seq<seq<char>>)
    requires KeepsAlive(cuts)
    ensures Answers(cuts + rest) == [AnswerTo(cuts)] + Answers(rest)
  {
    hide Process;
    var d := Flatten(cuts);
    forall m | 1 <= m < |cuts|
      ensures Process(Arrive(FRESH, Flatten(cuts[..m]))).1 == NoRequest
    {
      FlattenGrows(cuts, m);
      EndsOnce(d, |Flatten(cuts[..m])|);
      assert d[..|Flatten(cuts[..m])|] == Flatten(cuts[..m]);
    }
    CallsUpTo(FRESH, cuts, rest);
    assert (cuts + rest)[..|cuts|] == cuts && (cuts + rest)[|cuts|..] == rest;
  }

  function Joined(requests: seq<seq<seq<char>>>): seq<seq<char>> {
    if requests == [] then [] else requests[0] + Joined(requests[1..])
  }

  function AnswersTo(requests: seq<seq<seq<char>>>): seq<Answer> {
    if requests == [] then [] else [AnswerTo(requests[0])] + AnswersTo(requests[1..])
  }

  /** Keep-alive: any number of requests, each cut into arrivals in any way and sent after the answer to the one
      before, are all answered, each as if it were the only one. */
  lemma {:induction false} KeepAlive(requests: seq<seq<seq<char>>>)
    requires forall i :: 0 <= i < |requests| ==> KeepsAlive(requests[i])
    ensures Answers(Joined(requests)) == AnswersTo(requests)
  {
    hide KeepsAlive, AnswerTo;
    if requests == [] {
      assert Joined(requests) == [];
    } else {
      KeepAlive(requests[1..]);
      FirstAnswer(requests[0], Joined(requests[1..]));
    }
  }

  /** What arrives together with the end of a request is lost: the answer is the same with and without it, and
      nothing later depends on it. */
  lemma TogetherIsLost(d: seq<char>, x: seq<char>, later: seq<seq<char>>)
    requires Process(Arrive(FRESH, d)).1 == GetRequest
    ensures var (a, b) := (Answers([d + x] + later), Answers([d] + later));
            && a != [] && b != [] && a[1..] == b[1..]
            && a[0].conn == b[0].conn.(data := a[0].conn.data) && a[0].code == b[0].code == GetRequest
            && End(a[0].conn) == End(b[0].conn)
  {
    hide Process;
    AnswerStays(Arrive(FRESH, d), x);
    assert [] + d + x == [] + (d + x);
    OneArrival(d, later);
    OneArrival(d + x, later);
  }

  lemma OneArrival(d: seq<char>, later: seq<seq<char>>)
    requires Process(Arrive(FRESH, d)).1 != NoRequest
    ensures var (t, code) := Process(Arrive(FRESH, d));
            Answers([d] + later) == [Answer(d, t, code)] + if t.linger then Answers(later) else []
  {
    hide Process;
    var chunks := [d] + later;
    assert chunks[0] == d && chunks[..1] == [d] && chunks[1..] == later;
    assert [d][1..] == [] && d + [] == d;
    assert Flatten([d]) == d + Flatten([]);
  }

  /** Two keep-alive requests get two answers when the second waits for the first, and one when both arrive
      together. */
  lemma PipelinedGetsOne(d: seq<char>, e: seq<char>)
    requires KeepsAlive([d]) && KeepsAlive([e])
    ensures |Answers([d, e])| == 2 && |Answers([d + e])| == 1
  {
    hide Process;
    assert [d][1..] == [] && d + [] == d && Flatten([d]) == d;
    assert [[d], [e]][1..] == [[e]] && [[e]][1..] == [];
    assert Joined([[d], [e]]) == [d] + ([e] + Joined([])) == [d, e];
    KeepAlive([[d], [e]]);
    TogetherIsLost(d, e, []);
    assert [d + e] + [] == [d + e] && [d] + [] == [d];
    OneArrival(d, []);
  }

  /** The bytes that an answer is about. */
  function Used(a: Answer): seq<char> {
    if a.code == GetRequest && End(a.conn) <= |a.raw| then a.raw[..End(a.conn)] else a.raw
  }

  function AllRaw(answers: seq<Answer>): seq<char> {
    if answers == [] then [] else answers[0].raw + AllRaw(answers[1..])
  }

  function AllUsed(answers: seq<Answer>): seq<char> {
    if answers == [] then [] else Used(answers[0]) + AllUsed(answers[1..])
  }

  lemma {:induction false} UsedAtMost(answers: seq<Answer>)
    ensures |AllUsed(answers)| <= |AllRaw(answers)|
  {
    if answers != [] {
      UsedAtMost(answers[1..]);
    }
  }

  lemma {:induction false} FlattenParts(chunks: seq<seq<char>>, n: nat)
    requires n <= |chunks|
    ensures Flatten(chunks) == Flatten(chunks[..n]) + Flatten(chunks[n..])
  {
    if n > 0 {
      FlattenParts(chunks[1..], n - 1);
      assert chunks[..n][0] == chunks[0] && chunks[..n][1..] == chunks[1..][..n - 1];
      assert chunks[1..][n - 1..] == chunks[n..];
    }
  }

  /** The buffers at the answers make up what has been read, in order. */
  lemma {:induction false} AnswersRead(chunks: seq<seq<char>>)
    ensures AllRaw(Answers(chunks)) <= Flatten(chunks)
    decreases |chunks|
  {
    hide Process;
    if chunks != [] {
      var n := Calls(FRESH, chunks).2;
      FlattenParts(chunks, n);
      AnswersRead(chunks[n..]);
    }
  }

  // ---- when nothing is lost ----

  /** An arrival ends where `d` ends. */
  ghost predicate CutAfter(chunks: seq<seq<char>>, d: seq<char>) {
    exists n :: 0 <= n <= |chunks| && Flatten(chunks[..n]) == d
  }

  lemma FlattenOne(d: seq<char>)
    ensures Flatten([d]) == d
  {
    assert [d][1..] == [] && d + [] == d;
    assert Flatten([d]) == d + Flatten([]);
  }

  /** The first answer of a stream that begins with the request `d` is the one to `d`, with all that has arrived
      with the end of `d` in the buffer. */
  lemma FirstIsAnswered(d: seq<char>, chunks: seq<seq<char>>)
    requires KeepsAlive([d]) && chunks != [] && d <= Flatten(chunks)
    ensures var (t, code, n) := Calls(FRESH, chunks);
            code == GetRequest && t.linger && End(t) == |d| && d <= Flatten(chunks[..n]) <= Flatten(chunks)
  {
    hide Process, Calls;
    FlattenOne(d);
    var (t, code, n) := Calls(FRESH, chunks);
    var raw := Flatten(chunks[..n]);
    ChunksDoNotMatter(FRESH, chunks);
    FlattenParts(chunks, n);
    assert chunks[..|chunks|] == chunks;
    if |raw| < |d| {
      assert d[..|raw|] == raw;
      EndsOnce(d, |raw|);
    } else {
      AnswerStays(Arrive(FRESH, d), raw[|d|..]);
      assert [] + d + raw[|d|..] == [] + raw;
    }
  }

  /** A request keeps the connection alive however it is cut. */
  lemma KeptInCuts(d: seq<char>, cuts: seq<seq<char>>)
    requires KeepsAlive([d]) && NoneEmpty(cuts) && Flatten(cuts) == d
    ensures KeepsAlive(cuts) && Used(AnswerTo(cuts)) == d
  {
    hide Process;
    FlattenOne(d);
    NotEmpty(d);
  }

  /** When an arrival ends with `d`, the answer is to `d` alone. */
  lemma CutIsAnswered(d: seq<char>, chunks: seq<seq<char>>, m: nat)
    requires KeepsAlive([d]) && NoneEmpty(chunks) && m <= |chunks| && Flatten(chunks[..m]) == d
    ensures Answers(chunks) == [AnswerTo(chunks[..m])] + Answers(chunks[m..]) && Used(AnswerTo(chunks[..m])) == d
  {
    hide KeepsAlive, Answers, AnswerTo, Used, Flatten;
    KeptInCuts(d, chunks[..m]);
    FirstAnswer(chunks[..m], chunks[m..]);
    assert chunks == chunks[..m] + chunks[m..];
  }

  lemma CutNotEarlier(chunks: seq<seq<char>>, m: nat, n: nat)
    requires NoneEmpty(chunks) && m <= |chunks| && n <= |chunks| && |Flatten(chunks[..n])| >= |Flatten(chunks[..m])|
    ensures m <= n
  {
    if n < m {
      assert chunks[..m][..n] == chunks[..n];
      FlattenGrows(chunks[..m], n);
    }
  }

  /** Where the arrivals end behind `d` does not depend on how `d` was cut. */
  lemma CutBehind(chunks: seq<seq<char>>, m: nat, x: seq<char>)
    requires NoneEmpty(chunks) && m <= |chunks|
    ensures CutAfter(chunks, Flatten(chunks[..m]) + x) <==> CutAfter(chunks[m..], x)
  {
    var d := Flatten(chunks[..m]);
    if CutAfter(chunks, d + x) {
      var n :| 0 <= n <= |chunks| && Flatten(chunks[..n]) == d + x;
      CutNotEarlier(chunks, m, n);
      FlattenParts(chunks[..n], m);
      assert chunks[..n][..m] == chunks[..m] && chunks[..n][m..] == chunks[m..][..n - m];
      assert x == (d + x)[|d|..] == Flatten(chunks[m..][..n - m]);
    }
    if CutAfter(chunks[m..], x) {
      var n :| 0 <= n <= |chunks[m..]| && Flatten(chunks[m..][..n]) == x;
      FlattenParts(chunks[..m + n], m);
      assert chunks[..m + n][..m] == chunks[..m] && chunks[..m + n][m..] == chunks[m..][..n];
      assert Flatten(chunks[..m + n]) == d + x;
    }
  }

  /** Every request ends where an arrival ends. */
  ghost predicate AllCut(chunks: seq<seq<char>>, requests: seq<seq<char>>) {
    forall i :: 0 <= i <= |requests| ==> CutAfter(chunks, Flatten(requests[..i]))
  }

  lemma AllCutBehind(chunks: seq<seq<char>>, requests: seq<seq<char>>, m: nat)
    requires NoneEmpty(chunks) && m <= |chunks| && requests != [] && Flatten(chunks[..m]) == requests[0]
    ensures AllCut(chunks, requests) <==> AllCut(chunks[m..], requests[1..])
  {
    hide CutAfter;
    var (rest, late) := (requests[1..], chunks[m..]);
    forall i | 1 <= i <= |requests|
      ensures CutAfter(chunks, Flatten(requests[..i])) <==> CutAfter(late, Flatten(rest[..i - 1]))
    {
      assert requests[..i][0] == requests[0] && requests[..i][1..] == rest[..i - 1];
      CutBehind(chunks, m, Flatten(rest[..i - 1]));
    }
    if AllCut(chunks, requests) {
      forall i | 0 <= i <= |rest|
        ensures CutAfter(late, Flatten(rest[..i]))
      {
        assert CutAfter(chunks, Flatten(requests[..i + 1]));
      }
    }
    if AllCut(late, rest) {
      CutAtStart(chunks);
      assert requests[..0] == [];
      forall i | 0 <= i <= |requests|
        ensures CutAfter(chunks, Flatten(requests[..i]))
      {
        if i > 0 {
          assert CutAfter(late, Flatten(rest[..i - 1]));
        }
      }
    }
  }

  lemma CutAtStart(chunks: seq<seq<char>>)
    ensures CutAfter(chunks, [])
  {
    assert chunks[..0] == [];
  }

  /** When no arrival ends with the first request, something is lost. */
  lemma UncutLoses(d: seq<char>, chunks: seq<seq<char>>)
    requires KeepsAlive([d]) && chunks != [] && d <= Flatten(chunks) && !CutAfter(chunks, d)
    ensures |AllUsed(Answers(chunks))| < |Flatten(chunks)|
  {
    hide Process, Calls;
    FirstIsAnswered(d, chunks);
    var (t, code, n) := Calls(FRESH, chunks);
    FlattenParts(chunks, n);
    AnswersRead(chunks[n..]);
    UsedAtMost(Answers(chunks[n..]));
  }

  /** However keep-alive requests are cut into arrivals, no byte of them is lost if and only if each request ends
      where an arrival ends; then each of them is answered, with nothing else in the buffer. */
  lemma {:induction false} NothingLostIff(chunks: seq<seq<char>>, requests: seq<seq<char>>)
    requires NoneEmpty(chunks) && forall i :: 0 <= i < |requests| ==> KeepsAlive([requests[i]])
    requires Flatten(chunks) == Flatten(requests)
    ensures var answers := Answers(chunks);
            && (AllUsed(answers) == Flatten(chunks) <==> AllCut(chunks, requests))
            && (AllCut(chunks, requests) ==>
                  |answers| == |requests| && forall i :: 0 <= i < |requests| ==> answers[i].raw == requests[i])
    decreases |requests|
  {
    hide Process, KeepsAlive, Used, CutAfter;
    if requests == [] {
      assert chunks == [] by { NothingToRead(chunks); }
      CutAtStart(chunks);
      assert requests[..0] == [];
    } else {
      var (d, rest) := (requests[0], requests[1..]);
      NotEmpty(d);
      assert Flatten(chunks) == d + Flatten(rest);
      if CutAfter(chunks, d) {
        var m := CutPlace(chunks, d);
        CutIsAnswered(d, chunks, m);
        FlattenParts(chunks, m);
        assert Flatten(chunks[m..]) == Flatten(chunks)[|d|..] == Flatten(rest);
        NothingLostIff(chunks[m..], rest);
        AllCutBehind(chunks, requests, m);
      } else {
        UncutLoses(d, chunks);
        assert requests[..1] == [d];
        FlattenOne(d);
      }
    }
  }

  lemma NotEmpty(d: seq<char>)
    requires KeepsAlive([d])
    ensures d != []
  {
    assert [d][0] == d;
  }

  lemma CutPlace(chunks: seq<seq<char>>, d: seq<char>) returns (m: nat)
    requires CutAfter(chunks, d)
    ensures m <= |chunks| && Flatten(chunks[..m]) == d
  {
    m :| m <= |chunks| && Flatten(chunks[..m]) == d;
  }

  lemma NothingToRead(chunks: seq<seq<char>>)
    requires NoneEmpty(chunks) && Flatten(chunks) == []
    ensures chunks == []
  {
  }

  // ---- a request that keeps the connection ----

  /** Such requests exist: a GET of any path with "Connection: keep-alive". */
  lemma GetKeepsAlive(path: seq<char>)
    requires Plain(path) && ' ' !in path && '\t' !in path && path != [] && path[0] == '/'
    ensures KeepsAlive([Message(RequestText("GET", path), [LINGER + " " + "keep-alive"], [])])
  {
    hide Process, Classify, RequestOf, RequestText, Plain, Print, Placed, Fold, LINGER, EqNoCase;
    var (request, header) := (RequestText("GET", path), LINGER + " " + "keep-alive");
    var msg := Message(request, [header], []);
    RequestTextIs(GET, path);
    LingerPrinted("keep-alive");
    HeaderPlain();
    ReadsMessage(request, [header], []);
    FoldLinger(|request| + 2, header);
    FlattenOne(msg);
    MessageLength(request, header);
  }

  lemma HeaderPlain()
    ensures Plain(LINGER + " " + "keep-alive") && !EqNoCase("keep-alive", "close")
  {
    PlainConcat(LINGER, " ");
    PlainConcat(LINGER + " ", "keep-alive");
  }

  lemma FoldLinger(at: nat, l: seq<char>)
    requires Classify(l).Linger? && !EqNoCase(Classify(l).value, "close")
    ensures Fold(NO_FIELDS, Placed(at, [l])) == NO_FIELDS.(linger := true)
  {
    hide Classify, EqNoCase;
    var a := Line(at, l, at + |l| + 2);
    assert [l][1..] == [];
    assert Placed(at, [l]) == [a] && [a][1..] == [];
    assert Fold(WithField(NO_FIELDS, a), []) == WithField(NO_FIELDS, a);
    assert Fold(NO_FIELDS, [a]) == Fold(WithField(NO_FIELDS, a), []);
  }

  lemma MessageLength(request: seq<char>, header: seq<char>)
    ensures |Message(request, [header], [])| == |request| + 2 + |Print([header] + [""])|
  {
    OneLinePrint(request);
  }
}
