/**
 The parser over whole connections: any bytes, arriving in any chunks.
 */
module ParserTheorem {
  import opened CString
  import opened HttpParse
  import opened Reference
  import opened Chunks
  import opened ParserInvariants

  /** However a byte stream is cut into arrivals, the in-place parser, called after each of them, ends with
      the answer and the fields that the message read so far calls for, and no CR or LF below its cursor. */
  lemma AnyArrivals(chunks: seq<seq<char>>)
    requires chunks != []
    ensures var (t, code, n) := Calls(FRESH, chunks);
            Refines(t, code, Flatten(chunks[..n])) && Clean(t)
  {
    hide Process, Refines;
    var (t, code, n) := Calls(FRESH, chunks);
    ChunksDoNotMatter(FRESH, chunks);
    ParserRefines(Flatten(chunks[..n]));
    CleanKept(Arrive(FRESH, Flatten(chunks[..n])));
  }

  /** Once a bare CR or LF has stopped the parser, no further arrivals get an answer. */
  lemma {:induction false} NoAnswerAfterBareBreak(s: Conn, chunks: seq<seq<char>>)
    requires AtBareBreak(s) && chunks != []
    ensures Calls(s, chunks) == (Arrive(s, Flatten(chunks)), NoRequest, |chunks|)
    decreases |chunks|
  {
    hide Process;
    BareBreakAbsorbs(s, chunks[0]);
    if |chunks| > 1 {
      NoAnswerAfterBareBreak(Arrive(s, chunks[0]), chunks[1..]);
      assert s.data + chunks[0] + Flatten(chunks[1..]) == s.data + (chunks[0] + Flatten(chunks[1..]));
    } else {
      assert chunks[1..] == [];
      assert chunks[0] + [] == chunks[0];
    }
  }

  // ---- messages with a bare CR or LF ----

  /** The first line from `from` on that does not end in CRLF holds a CR or LF that is not part of one. */
  predicate HasBareBreak(msg: seq<char>, from: nat)
    requires from <= |msg|
    decreases |msg| - from
  {
    var e := Find(msg, from, BREAK);
    if e + 1 < |msg| && msg[e] == '\r' && msg[e + 1] == '\n' then HasBareBreak(msg, e + 2)
    else e < |msg| && (msg[e] == '\n' || e + 1 < |msg|)
  }

  /** Later bytes add no line behind a bare break. */
  lemma {:induction false} LinesStay(msg: seq<char>, q: seq<char>, from: nat)
    requires from <= |msg| && HasBareBreak(msg, from)
    ensures Lines(msg + q, from) == Lines(msg, from)
    decreases |msg| - from
  {
    hide CStr, Find;
    FindInLonger(msg, q, from, BREAK);
    var e := Find(msg, from, BREAK);
    assert (msg + q)[..e] == msg[..e];
    if e + 1 < |msg| && msg[e] == '\r' && msg[e + 1] == '\n' {
      LinesStay(msg, q, e + 2);
    }
  }

  /** The request line, if it is there, is accepted, and the header block is not closed. */
  predicate InHeaders(lines: seq<Line>) {
    lines == [] || (RequestOf(lines[0].text).Some? && FirstBlank(lines[1..]) == |lines| - 1)
  }

  /** Enough bytes behind a closed header block complete any body. */
  lemma ClosedAnswers(msg: seq<char>) returns (q: seq<char>)
    requires HasBareBreak(msg, 0) && !InHeaders(Lines(msg, 0))
    ensures Process(Arrive(FRESH, msg + q)).1 != NoRequest
  {
    hide Lines, RequestOf, Fold, FirstBlank, Process, StringAt, WithField;
    var lines := Lines(msg, 0);
    if RequestOf(lines[0].text).None? {
      q := [];
    } else {
      var rest := lines[1..];
      var e := FirstBlank(rest);
      var n := Fold(NO_FIELDS, rest[..e]).contentLength;
      LinesInside(msg, 0, e + 1);
      q := seq(if n > 0 then n else 0, _ => 'x');
    }
    LinesStay(msg, q, 0);
    ParserRefines(msg + q);
  }

  lemma {:induction false} LinesInside(msg: seq<char>, from: nat, k: nat)
    requires from <= |msg| && k < |Lines(msg, from)|
    ensures Lines(msg, from)[k].next <= |msg|
    decreases k
  {
    hide CStr;
    if k > 0 {
      LinesInside(msg, Lines(msg, from)[0].next, k - 1);
    }
  }

  /** A message whose first unfinished line holds a bare CR or LF never gets an answer, whatever follows it,
      exactly when that line stands in the header block of an accepted request, or is the first one. */
  lemma BareBreakIsFinal(msg: seq<char>)
    requires HasBareBreak(msg, 0)
    ensures (forall q: seq<char> :: Process(Arrive(FRESH, msg + q)).1 == NoRequest) <==> InHeaders(Lines(msg, 0))
  {
    hide Lines, RequestOf, Fold, FirstBlank, Process, StringAt;
    if InHeaders(Lines(msg, 0)) {
      forall q: seq<char>
        ensures Process(Arrive(FRESH, msg + q)).1 == NoRequest
      {
        LinesStay(msg, q, 0);
        ParserRefines(msg + q);
      }
    } else {
      var q := ClosedAnswers(msg);
    }
  }

  /** The same over whole connections: however the message and what follows it arrive, no call answers. */
  lemma NoAnswerInAnyArrivals(msg: seq<char>, chunks: seq<seq<char>>)
    requires HasBareBreak(msg, 0) && InHeaders(Lines(msg, 0)) && chunks != [] && msg <= Flatten(chunks)
    ensures Calls(FRESH, chunks).1 == NoRequest && Calls(FRESH, chunks).2 == |chunks|
  {
    hide Process, Lines, InHeaders, HasBareBreak, Flatten, Calls;
    var n := Calls(FRESH, chunks).2;
    ChunksDoNotMatter(FRESH, chunks);
    FlattenPrefix(chunks, n);
    NoAnswerTo(msg, Flatten(chunks));
    NoEarlierAnswer(Flatten(chunks[..n]), Flatten(chunks));
  }

  lemma NoAnswerTo(msg: seq<char>, all: seq<char>)
    requires HasBareBreak(msg, 0) && InHeaders(Lines(msg, 0)) && msg <= all
    ensures Process(Arrive(FRESH, all)).1 == NoRequest
  {
    hide Process, Lines, InHeaders, HasBareBreak;
    BareBreakIsFinal(msg);
    var q := all[|msg|..];
    assert Process(Arrive(FRESH, msg + q)).1 == NoRequest;
    assert all == msg + q;
  }

  lemma NoEarlierAnswer(some: seq<char>, all: seq<char>)
    requires some <= all && Process(Arrive(FRESH, all)).1 == NoRequest
    ensures Process(Arrive(FRESH, some)).1 == NoRequest
  {
    hide Process;
    assert [] + some + all[|some|..] == [] + all;
    if Process(Arrive(FRESH, some)).1 != NoRequest {
      AnswerStays(Arrive(FRESH, some), all[|some|..]);
    }
  }

  lemma {:induction false} FlattenPrefix(chunks: seq<seq<char>>, n: nat)
    requires n <= |chunks|
    ensures Flatten(chunks[..n]) <= Flatten(chunks)
  {
    if n > 0 {
      FlattenPrefix(chunks[1..], n - 1);
      assert chunks[..n][0] == chunks[0] && chunks[..n][1..] == chunks[1..][..n - 1];
    }
  }
}
