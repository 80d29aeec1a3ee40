/**
 Response framing: what process_write puts into the buffer, read back by the server's own parser.
 */
module Framing {
  import opened CString
  import opened HttpParse
  import opened Reference
  import opened Printer
  import opened Response
  import Transmission

  /** A parser that stands in front of the header block `bytes`. */
  function AtHeaders(bytes: seq<char>): Conn {
    Arrive(FRESH.(state := Header), bytes)
  }

  /** The header block that add_headers(n) emits, behind any header lines `types`, gives back n and the
      linger flag; the parser stops right behind the blank line, where the body starts. */
  lemma ReadsAnswer(types: seq<seq<char>>, n: nat, linger: bool, body: seq<char>)
    requires AllPlain(types) && forall k :: 0 <= k < |types| ==> types[k] != []
    ensures var block := Print(AnswerHeaders(types, n, linger) + [""]);
            var (t, code) := Process(AtHeaders(block + body));
            && t.contentLength == n && t.linger == linger && t.checked == |block|
            && (code == GetRequest <==> |body| >= n)
  {
    hide Lines, Process, Print, LENGTH, LINGER, Itoa, Atoi, LingerValue, CStr, Classify, Fold, EqNoCase, PutNul;
    var headers := AnswerHeaders(types, n, linger);
    var msg := Print(headers + [""]) + body;
    var k := |types|;
    NumberPrinted(n);
    LengthPrinted(Itoa(n));
    LingerValuePrinted(linger);
    LinesPlain(n, linger);
    assert msg[0..0 + |Print(headers + [""])|] == Print(headers + [""]);
    HeaderLines(msg, 0, headers);
    assert AtHeaders(msg).data == msg == msg[0..];
    HeaderStage(AtHeaders(msg), msg, NO_FIELDS);
    var lines := Placed(0, headers);
    LastWins(NO_FIELDS, lines, k);
    LastWins(NO_FIELDS, lines, k + 1);
  }

  lemma LingerValuePrinted(linger: bool)
    ensures var v := LingerValue(linger); Classify(LINGER + " " + v) == Linger(v) && (EqNoCase(v, "close") <==> !linger)
  {
    hide Classify, LINGER;
    LingerPrinted(LingerValue(linger));
    EqNoCaseRefl("close");
  }

  lemma LinesPlain(n: nat, linger: bool)
    ensures Plain(LENGTH + " " + Itoa(n)) && Plain(LINGER + " " + LingerValue(linger))
  {
    NumberPrinted(n);
    PlainConcat(LENGTH, " ");
    PlainConcat(LENGTH + " ", Itoa(n));
    PlainConcat(LINGER, " ");
    PlainConcat(LINGER + " ", LingerValue(linger));
  }

  lemma StatusShort(status: nat, title: seq<char>)
    requires status < 1000 && |title| <= 20
    ensures |StatusLine(status, title)| <= 40
  {
    assert Pow10(3) == 1000;
    ItoaShort(status, 3);
  }

  lemma HeadersShort(n: nat, linger: bool)
    requires n < 0x8000_0000
    ensures |Concat(HeaderTexts(n, linger))| <= 60
  {
    TenDigits();
    hide Itoa, Pow10;
    ItoaShort(n, 10);
    var (a, b) := (LengthLine(n), LingerLine(linger));
    assert |a| <= 28 && |b| <= 24;
    ConcatThree(a, b, "\r\n");
  }

  lemma TenDigits()
    ensures Pow10(10) == 10000000000
  {
    assert Pow10(5) == 100000;
  }

  lemma ConcatThree(a: seq<char>, b: seq<char>, c: seq<char>)
    ensures Concat([a, b, c]) == a + (b + c)
  {
    assert [a, b, c][1..] == [b, c];
    ConcatTwo(b, c);
  }

  /** Every error answer fits into an empty buffer, announces exactly the bytes that follow its blank
      line, and carries the linger flag. */
  lemma ErrorFraming(r: Result, linger: bool)
    requires r != FileRequest
    ensures var reply := ErrorReply(r);
            var out := PutAll([], WRITE_BUFSIZE, ErrorTexts(r, linger));
            var status := StatusLine(reply.status, reply.title);
            var block := Print(AnswerHeaders([], |reply.form|, linger) + [""]);
            && out == status + block + reply.form && 2 * |out| <= WRITE_BUFSIZE
            && |PutAll([], WRITE_BUFSIZE, ErrorHead(reply, linger))| + |reply.form| + 1 < WRITE_BUFSIZE
            && (var (t, code) := Process(AtHeaders(block + reply.form));
                code == GetRequest && t.contentLength == |reply.form| && t.linger == linger && t.checked == |block|)
  {
    hide Process, Print, PutAll, AnswerHeaders, StatusLine, HeaderTexts, Concat;
    var reply := ErrorReply(r);
    FormsShort(r);
    hide ErrorReply;
    var status := StatusLine(reply.status, reply.title);
    var headers := HeaderTexts(|reply.form|, linger);
    StatusShort(reply.status, reply.title);
    HeadersShort(|reply.form|, linger);
    HeaderTextsPrint(|reply.form|, linger);
    ConcatOfConcat([status], headers);
    ConcatOfConcat([status] + headers, [reply.form]);
    ConcatOne(status);
    ConcatOne(reply.form);
    PutAllFits([], WRITE_BUFSIZE, ErrorHead(reply, linger));
    PutAllFits([], WRITE_BUFSIZE, ErrorTexts(r, linger));
    ReadsAnswer([], |reply.form|, linger, reply.form);
  }

  ghost predicate Short(reply: Reply) {
    reply.status < 1000 && |reply.title| <= 20 && |reply.form| <= 100
  }

  lemma InternalErrorShort()
    ensures Short(ErrorReply(InternalError))
  {
  }

  lemma BadRequestShort()
    ensures Short(ErrorReply(BadRequest400))
  {
  }

  lemma NoResourceShort()
    ensures Short(ErrorReply(NoResource))
  {
  }

  lemma ForbiddenShort()
    ensures Short(ErrorReply(Forbidden))
  {
  }

  lemma FormsShort(r: Result)
    requires r != FileRequest
    ensures Short(ErrorReply(r))
  {
    hide ErrorReply;
    InternalErrorShort();
    BadRequestShort();
    NoResourceShort();
    ForbiddenShort();
  }

  lemma ConcatOne(a: seq<char>)
    ensures Concat([a]) == a
  {
    assert [a][1..] == [];
    assert a + [] == a;
  }

  /** What stands before the list in a list answer. */
  function ListHead(n: nat, linger: bool): seq<char> {
    StatusLine(200, "OK") + Print(AnswerHeaders([TYPE_LIST], n, linger) + [""])
  }

  /** A list answer carries the bytes it announces exactly when head and list leave room for two more
      bytes in the buffer; otherwise it announces the list and carries none of it. */
  lemma ListFraming(list: seq<char>, linger: bool)
    requires |list| < WRITE_BUFSIZE
    ensures var out := PutAll([], WRITE_BUFSIZE, ListTexts(list, linger));
            var head := ListHead(|list|, linger);
            && head <= out && |out| + 1 < WRITE_BUFSIZE
            && (out[|head|..] == list <==> |head| + |list| + 1 < WRITE_BUFSIZE)
            && (|head| + |list| + 1 >= WRITE_BUFSIZE ==> out == head)
            && (var (t, _) := Process(AtHeaders(
                  Print(AnswerHeaders([TYPE_LIST], |list|, linger) + [""]) + out[|head|..]));
                t.contentLength == |list| && t.linger == linger)
  {
    hide Process, Print, PutAll, AnswerHeaders, StatusLine, HeaderTexts, Concat, LENGTH, LINGER;
    var (status, kind, headers) := (StatusLine(200, "OK"), TYPE_LIST + "\r\n", HeaderTexts(|list|, linger));
    var texts := [status, kind] + headers;
    var head := ListHead(|list|, linger);
    var out := PutAll([], WRITE_BUFSIZE, ListTexts(list, linger));
    TypePlain2();
    StatusShort(200, "OK");
    HeadersShort(|list|, linger);
    ConcatOfConcat([status, kind], headers);
    ConcatTwo(status, kind);
    ListHeadPrint(|list|, linger);
    assert Concat(texts) == head;
    PutAllFits([], WRITE_BUFSIZE, texts);
    assert [] + Concat(texts) == head;
    PutAllConcat([], WRITE_BUFSIZE, texts, [list]);
    PutOne(head, WRITE_BUFSIZE, list);
    assert out == Put(head, WRITE_BUFSIZE, list);
    ReadsAnswer([TYPE_LIST], |list|, linger, out[|head|..]);
  }

  lemma ConcatTwo(a: seq<char>, b: seq<char>)
    ensures Concat([a, b]) == a + b
  {
    assert [a, b][1..] == [b];
    ConcatOne(b);
  }

  lemma TypePlain2()
    ensures Plain(TYPE_LIST) && |TYPE_LIST| == 24
  {
  }

  lemma ListHeadPrint(n: nat, linger: bool)
    ensures ListHead(n, linger) == StatusLine(200, "OK") + (TYPE_LIST + "\r\n") + Concat(HeaderTexts(n, linger))
  {
    hide StatusLine, HeaderTexts, Itoa, LENGTH, LINGER, LingerValue, TYPE_LIST;
    HeaderTextsPrint(n, linger);
    var lines := AnswerHeaders([], n, linger) + [""];
    assert AnswerHeaders([TYPE_LIST], n, linger) + [""] == [TYPE_LIST] + lines;
    assert ([TYPE_LIST] + lines)[1..] == lines;
    assert Print([TYPE_LIST] + lines) == TYPE_LIST + "\r\n" + Print(lines);
  }

  /** A listing of 1000 bytes or more is announced and not sent. */
  lemma LongListIsDropped(list: seq<char>, linger: bool)
    requires 1000 <= |list| < 1024
    ensures var out := PutAll([], WRITE_BUFSIZE, ListTexts(list, linger));
            out == ListHead(|list|, linger) && list != []
  {
    hide PutAll, AnswerHeaders, HeaderTexts;
    ListFraming(list, linger);
    ListHeadPrint(|list|, linger);
    TypePlain2();
    hide TYPE_LIST;
  }

  /** What the printer makes of a file answer. */
  lemma FileHead(size: nat, linger: bool)
    requires size < 0x8000_0000
    ensures var out := PutAll([], WRITE_BUFSIZE, FileTexts(size, linger));
            out == StatusLine(200, "OK") + Print(AnswerHeaders([], size, linger) + [""]) && |out| <= 200
  {
    hide Print, PutAll, AnswerHeaders, StatusLine, HeaderTexts, Concat;
    StatusShort(200, "OK");
    HeadersShort(size, linger);
    HeaderTextsPrint(size, linger);
    ConcatOfConcat([StatusLine(200, "OK")], HeaderTexts(size, linger));
    ConcatOne(StatusLine(200, "OK"));
    PutAllFits([], WRITE_BUFSIZE, FileTexts(size, linger));
    assert [] + Concat(FileTexts(size, linger)) == PutAll([], WRITE_BUFSIZE, FileTexts(size, linger));
  }

  /** A file answer from the printer through the socket to a parser: when it completes and no send ran
      past the header, what is on the wire announces exactly the file that follows. */
  lemma FileOnTheWire(buf: seq<char>, file: seq<char>, linger: bool, scripts: seq<seq<Transmission.Io>>)
    requires |file| < 0x8000_0000 && |buf| == WRITE_BUFSIZE
    requires PutAll([], WRITE_BUFSIZE, FileTexts(|file|, linger)) <= buf
    ensures var n := |PutAll([], WRITE_BUFSIZE, FileTexts(|file|, linger))|;
            2 * n <= WRITE_BUFSIZE &&
            var (s, o) := Transmission.Calls(Transmission.Start(buf, n, true, file), scripts);
            var block := Print(AnswerHeaders([], |file|, linger) + [""]);
            && s.reach <= WRITE_BUFSIZE
            && (o == Transmission.Complete && !s.over ==> s.wire == StatusLine(200, "OK") + block + file)
            && (var (t, code) := Process(AtHeaders(block + file));
                code == GetRequest && t.contentLength == |file| && t.linger == linger && t.checked == |block|)
  {
    hide Process, Print, PutAll, AnswerHeaders, StatusLine, FileTexts, Transmission.Calls, Transmission.Start;
    var head := PutAll([], WRITE_BUFSIZE, FileTexts(|file|, linger));
    FileHead(|file|, linger);
    ReadsAnswer([], |file|, linger, file);
    assert buf[..|head|] == head;
    Transmission.OnTheWire(buf, |head|, true, file, scripts);
  }
}
