/**
 process_write: which answer stands in the buffer for each result of process_read, byte for byte.
 */
module ProcessWrite {
  import opened CString
  import opened Printer
  import opened Response
  import opened Framing

  /** HTTP_CODE */
  datatype HttpCode =
    | NoRequestCode | GetRequestCode | BadRequestCode | NoResourceCode | ForbiddenCode | FileCode | InternalErrorCode
    | ClosedCode

  /** A status line, the two headers with the number of bytes behind the blank line, and those bytes. */
  function Page(status: seq<char>, size: nat, linger: bool, text: seq<char>): seq<char> {
    status + "Content-Length: " + Itoa(size) + "\r\n" + "Connection: " + (if linger then "keep-alive" else "close")
    + "\r\n" + "\r\n" + text
  }

  const INTERNAL_TEXT := "There was an unusual problem serving the requested file.\n"
  const BAD_TEXT := "Your request has bad syntax or is inherently impossible to satisfy.\n"
  const MISSING_TEXT := "The requested file was not found on this server.\n"
  const FORBIDDEN_TEXT := "You do not have permission to get file from this server.\n"

  /** What a client reads for each error. */
  function ErrorPage(ret: HttpCode, linger: bool): seq<char>
    requires ret in {InternalErrorCode, BadRequestCode, NoResourceCode, ForbiddenCode}
  {
    match ret
    case InternalErrorCode => Page("HTTP/1.1 500 Internal Error\r\n", |INTERNAL_TEXT|, linger, INTERNAL_TEXT)
    case BadRequestCode => Page("HTTP/1.1 400 Bad Request\r\n", |BAD_TEXT|, linger, BAD_TEXT)
    case NoResourceCode => Page("HTTP/1.1 404 Not Found\r\n", |MISSING_TEXT|, linger, MISSING_TEXT)
    case ForbiddenCode => Page("HTTP/1.1 403 Forbidden\r\n", |FORBIDDEN_TEXT|, linger, FORBIDDEN_TEXT)
  }

  /** A number of three digits is printed as these digits. */
  lemma ThreeDigits(a: nat, b: nat, c: nat)
    requires 0 < a < 10 && b < 10 && c < 10
    ensures Itoa(100 * a + 10 * b + c) == ['0' + a as char, '0' + b as char, '0' + c as char]
  {
    assert (100 * a + 10 * b + c) / 10 == 10 * a + b && (100 * a + 10 * b + c) % 10 == c;
    assert (10 * a + b) / 10 == a && (10 * a + b) % 10 == b;
    assert Itoa(a) == ['0' + a as char];
    assert Itoa(10 * a + b) == Itoa(a) + ['0' + b as char];
  }

  lemma StatusIs(status: nat, digits: seq<char>, title: seq<char>)
    requires Itoa(status) == digits
    ensures StatusLine(status, title) == "HTTP/1.1 " + digits + " " + title + "\r\n"
  {
  }

  /** The header block of an answer. */
  lemma BlockIs(n: nat, linger: bool)
    ensures Print(AnswerHeaders([], n, linger) + [""]) ==
              "Content-Length: " + Itoa(n) + "\r\n"
              + "Connection: " + (if linger then "keep-alive" else "close") + "\r\n" + "\r\n"
  {
    HeaderTextsPrint(n, linger);
    ConcatThree(LengthLine(n), LingerLine(linger), "\r\n");
    assert LengthLine(n) == "Content-Length: " + Itoa(n) + "\r\n";
    assert LingerLine(linger) == "Connection: " + (if linger then "keep-alive" else "close") + "\r\n";
  }

  lemma PageIs(status: seq<char>, n: nat, linger: bool, text: seq<char>)
    ensures status + Print(AnswerHeaders([], n, linger) + [""]) + text == Page(status, n, linger, text)
  {
    hide Print, AnswerHeaders;
    BlockIs(n, linger);
  }

  lemma InternalReply()
    ensures ErrorReply(InternalError) == Reply(500, "Internal Error", INTERNAL_TEXT)
    ensures StatusLine(500, "Internal Error") == "HTTP/1.1 500 Internal Error\r\n"
  {
    ThreeDigits(5, 0, 0);
    StatusIs(500, "500", "Internal Error");
  }

  lemma BadReply()
    ensures ErrorReply(BadRequest400) == Reply(400, "Bad Request", BAD_TEXT)
    ensures StatusLine(400, "Bad Request") == "HTTP/1.1 400 Bad Request\r\n"
  {
    ThreeDigits(4, 0, 0);
    StatusIs(400, "400", "Bad Request");
  }

  lemma MissingReply()
    ensures ErrorReply(NoResource) == Reply(404, "Not Found", MISSING_TEXT)
    ensures StatusLine(404, "Not Found") == "HTTP/1.1 404 Not Found\r\n"
  {
    ThreeDigits(4, 0, 4);
    StatusIs(404, "404", "Not Found");
  }

  lemma ForbiddenReply()
    ensures ErrorReply(Forbidden) == Reply(403, "Forbidden", FORBIDDEN_TEXT)
    ensures StatusLine(403, "Forbidden") == "HTTP/1.1 403 Forbidden\r\n"
  {
    ThreeDigits(4, 0, 3);
    StatusIs(403, "403", "Forbidden");
  }

  function ResultOf(ret: HttpCode): Result
    requires ret in {InternalErrorCode, BadRequestCode, NoResourceCode, ForbiddenCode}
  {
    match ret
    case InternalErrorCode => InternalError
    case BadRequestCode => BadRequest400
    case NoResourceCode => NoResource
    case ForbiddenCode => Forbidden
  }

  lemma ErrorStatus(ret: HttpCode, linger: bool)
    requires ret in {InternalErrorCode, BadRequestCode, NoResourceCode, ForbiddenCode}
    ensures var reply := ErrorReply(ResultOf(ret));
            Page(StatusLine(reply.status, reply.title), |reply.form|, linger, reply.form) == ErrorPage(ret, linger)
  {
    hide Page, StatusLine, INTERNAL_TEXT, BAD_TEXT, MISSING_TEXT, FORBIDDEN_TEXT, ErrorReply;
    match ret
    case InternalErrorCode => InternalReply();
    case BadRequestCode => BadReply();
    case NoResourceCode => MissingReply();
    case ForbiddenCode => ForbiddenReply();
  }

  /** The bytes of every error answer: its status line, its two headers, the blank line, its text. */
  lemma ErrorIs(ret: HttpCode, linger: bool)
    requires ret in {InternalErrorCode, BadRequestCode, NoResourceCode, ForbiddenCode}
    ensures PutAll([], 1024, ErrorTexts(ResultOf(ret), linger)) == ErrorPage(ret, linger)
    ensures var reply := ErrorReply(ResultOf(ret));
            |PutAll([], 1024, ErrorHead(reply, linger))| + |reply.form| + 1 < 1024
  {
    hide PutAll, Page, Print, AnswerHeaders, StatusLine, ErrorReply, ErrorTexts, ErrorPage, ErrorHead;
    var reply := ErrorReply(ResultOf(ret));
    ErrorFraming(ResultOf(ret), linger);
    PageIs(StatusLine(reply.status, reply.title), |reply.form|, linger, reply.form);
    ErrorStatus(ret, linger);
  }

  lemma OkStatus()
    ensures StatusLine(200, "OK") == "HTTP/1.1 200 OK\r\n"
  {
    ThreeDigits(2, 0, 0);
    StatusIs(200, "200", "OK");
  }

  /** The bytes of a file answer ahead of the file. */
  lemma FileIs(size: nat, linger: bool)
    requires size < 0x8000_0000
    ensures PutAll([], 1024, FileTexts(size, linger)) == Page("HTTP/1.1 200 OK\r\n", size, linger, [])
  {
    hide PutAll, Page, Print, AnswerHeaders, StatusLine, FileTexts;
    FileHead(size, linger);
    OkStatus();
    PageIs(StatusLine(200, "OK"), size, linger, []);
    var out := StatusLine(200, "OK") + Print(AnswerHeaders([], size, linger) + [""]);
    assert out + [] == out;
  }

  /** The bytes of a list answer ahead of the list. */
  lemma ListIs(n: nat, linger: bool)
    ensures ListHead(n, linger) == Page("HTTP/1.1 200 OK\r\n" + "Content-Type: text/plain\r\n", n, linger, [])
  {
    hide StatusLine, Itoa, Print, AnswerHeaders, HeaderTexts, ListHead, Concat, Page;
    ListHeadPrint(n, linger);
    HeaderTextsPrint(n, linger);
    OkStatus();
    PageIs("HTTP/1.1 200 OK\r\n" + "Content-Type: text/plain\r\n", n, linger, []);
    TypeIs();
    hide TYPE_LIST;
    var head := StatusLine(200, "OK") + (TYPE_LIST + "\r\n") + Print(AnswerHeaders([], n, linger) + [""]);
    assert head + [] == head;
  }

  lemma TypeIs()
    ensures TYPE_LIST + "\r\n" == "Content-Type: text/plain\r\n"
  {
  }

  /** The requests whose answer do_request has put into the buffer already. */
  predicate Answered(url: seq<char>, isPost: bool) {
    url == "/file/list" || (url == "/file" && isPost) || "/delete" <= url
  }

  /** process_write on the buffer `b`: an error page; the head of a file answer for a file of `size` bytes, unless
      do_request has answered; and false for every other result. */
  method Write(b: ResponseBuffer, ret: HttpCode, url: seq<char>, isPost: bool, size: nat, linger: bool)
    returns (ok: bool)
    requires b.Valid() && b.writeBuf.Length == 1024
    modifies b, b.writeBuf
    ensures b.Valid()
    ensures ret in {InternalErrorCode, BadRequestCode, NoResourceCode, ForbiddenCode} && old(b.Contents()) == [] ==>
              ok && b.Contents() == ErrorPage(ret, linger) && b.byteToSend == |b.Contents()|
    ensures ret == FileCode && Answered(url, isPost) ==>
              ok && b.Contents() == old(b.Contents()) && b.byteToSend == |b.Contents()|
    ensures ret == FileCode && !Answered(url, isPost) && old(b.Contents()) == [] && size < 0x8000_0000 ==>
              && ok && b.Contents() == Page("HTTP/1.1 200 OK\r\n", size, linger, [])
              && b.byteToSend == |b.Contents()|
    ensures ret in {NoRequestCode, GetRequestCode, ClosedCode} ==>
              !ok && b.Contents() == old(b.Contents()) && b.byteToSend == old(b.byteToSend)
  {
    hide PutAll, Page, ErrorPage, ErrorTexts, ErrorHead, ErrorReply, FileTexts;
    match ret {
      case FileCode =>
        if Answered(url, isPost) {
          b.byteToSend := b.writeIdx;
          return true;
        }
        if size < 0x8000_0000 {
          FileIs(size, linger);
        }
        b.AnswerFile(size, linger);
        return true;
      case NoRequestCode => return false;
      case GetRequestCode => return false;
      case ClosedCode => return false;
      case _ =>
        ErrorIs(ret, linger);
        ok := b.AnswerError(ResultOf(ret), linger);
    }
  }
}
