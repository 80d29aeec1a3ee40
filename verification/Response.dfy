/**
 The printer of http_conn: add_response appends formatted text to a bounded buffer or leaves it as it
 was, and process_write builds an answer from such appends.
 */
module Response {
  import opened CString
  import opened Printer

  const WRITE_BUFSIZE := 1024

  /** What do_request hands to process_write. */
  datatype Result = InternalError | BadRequest400 | NoResource | Forbidden | FileRequest

  datatype Reply = Reply(status: nat, title: seq<char>, form: seq<char>)

  /** The fixed answers to the four errors. */
  function ErrorReply(r: Result): Reply
    requires r != FileRequest
  {
    match r
    case InternalError => Reply(500, "Internal Error", "There was an unusual problem serving the requested file.\n")
    case BadRequest400 =>
      Reply(400, "Bad Request", "Your request has bad syntax or is inherently impossible to satisfy.\n")
    case NoResource => Reply(404, "Not Found", "The requested file was not found on this server.\n")
    case Forbidden => Reply(403, "Forbidden", "You do not have permission to get file from this server.\n")
  }

  /** One append: all of `text` if it leaves room for two more bytes, nothing otherwise. */
  function Put(out: seq<char>, size: nat, text: seq<char>): seq<char> {
    if |out| + |text| + 1 < size then out + text else out
  }

  function PutAll(out: seq<char>, size: nat, texts: seq<seq<char>>): seq<char>
    decreases |texts|
  {
    if texts == [] then out else PutAll(Put(out, size, texts[0]), size, texts[1..])
  }

  function StatusLine(status: nat, title: seq<char>): seq<char> {
    "HTTP/1.1" + " " + Itoa(status) + " " + title + "\r\n"
  }

  function LengthLine(n: nat): seq<char> { LENGTH + " " + Itoa(n) + "\r\n" }

  function LingerValue(linger: bool): seq<char> { if linger then "keep-alive" else "close" }

  function LingerLine(linger: bool): seq<char> { LINGER + " " + LingerValue(linger) + "\r\n" }

  function HeaderTexts(n: nat, linger: bool): seq<seq<char>> {
    [LengthLine(n), LingerLine(linger), "\r\n"]
  }

  function ErrorTexts(r: Result, linger: bool): seq<seq<char>>
    requires r != FileRequest
  {
    var reply := ErrorReply(r);
    ErrorHead(reply, linger) + [reply.form]
  }

  function ErrorHead(reply: Reply, linger: bool): seq<seq<char>> {
    [StatusLine(reply.status, reply.title)] + HeaderTexts(|reply.form|, linger)
  }

  const TYPE_LIST := "Content-Type: text/plain"

  /** The appends of the file list answer. */
  function ListTexts(list: seq<char>, linger: bool): seq<seq<char>> {
    [StatusLine(200, "OK"), TYPE_LIST + "\r\n"] + HeaderTexts(|list|, linger) + [list]
  }

  /** The appends of a file answer, whose body sendfile moves. */
  function FileTexts(n: nat, linger: bool): seq<seq<char>> {
    [StatusLine(200, "OK")] + HeaderTexts(n, linger)
  }

  class ResponseBuffer {
    const writeBuf: array<char>
    var writeIdx: nat
    var byteToSend: nat

    ghost predicate Valid()
      reads this
    {
      writeIdx + 1 < writeBuf.Length
    }

    function Contents(): (s: seq<char>)
      requires Valid()
      reads this, writeBuf
    {
      writeBuf[..writeIdx]
    }

    constructor ()
      ensures Valid() && Contents() == [] && byteToSend == 0
      ensures fresh(writeBuf) && writeBuf.Length == WRITE_BUFSIZE
    {
      writeBuf := new char[WRITE_BUFSIZE](_ => NUL);
      writeIdx, byteToSend := 0, 0;
    }

    /** add_response for the formatted text `text`; vsnprintf writes as much as fits even when it fails. */
    method AddResponse(text: seq<char>) returns (ok: bool)
      requires Valid()
      modifies this`writeIdx, writeBuf
      ensures Valid() && Contents() == Put(old(Contents()), writeBuf.Length, text)
      ensures ok <==> old(writeIdx) + |text| + 1 < writeBuf.Length
      ensures !ok ==> writeIdx == old(writeIdx)
    {
      if writeIdx >= writeBuf.Length {
        return false;
      }
      var room := writeBuf.Length - 1 - writeIdx;
      var len := |text|;
      var copied := if len < room then len else room - 1;
      forall i | 0 <= i < copied {
        writeBuf[writeIdx + i] := text[i];
      }
      writeBuf[writeIdx + copied] := NUL;
      if len >= room {
        assert writeBuf[..writeIdx] == old(writeBuf[..writeIdx]);
        return false;
      }
      writeIdx := writeIdx + len;
      assert writeBuf[..writeIdx] == old(writeBuf[..writeIdx]) + text;
      return true;
    }

    /** add_headers ignores what its appends return. */
    method AddHeaders(n: nat, linger: bool)
      requires Valid()
      modifies this`writeIdx, writeBuf
      ensures Valid() && Contents() == PutAll(old(Contents()), writeBuf.Length, HeaderTexts(n, linger))
    {
      hide Put, LengthLine, LingerLine;
      ghost var (out, size) := (Contents(), writeBuf.Length);
      var ok := AddResponse(LengthLine(n));
      ok := AddResponse(LingerLine(linger));
      ok := AddResponse("\r\n");
      PutThree(out, size, LengthLine(n), LingerLine(linger), "\r\n");
    }

    /** The file list answer of do_request. */
    method AnswerList(list: seq<char>, linger: bool)
      requires Valid()
      modifies this, writeBuf
      ensures Valid() && Contents() == PutAll(old(Contents()), writeBuf.Length, ListTexts(list, linger))
      ensures byteToSend == writeIdx
    {
      hide Put, StatusLine, HeaderTexts;
      ghost var (out, size) := (Contents(), writeBuf.Length);
      ghost var first := [StatusLine(200, "OK"), TYPE_LIST + "\r\n"];
      var ok := AddResponse(StatusLine(200, "OK"));
      ok := AddResponse(TYPE_LIST + "\r\n");
      PutTwo(out, size, first[0], first[1]);
      AddHeaders(|list|, linger);
      PutAllConcat(out, size, first, HeaderTexts(|list|, linger));
      PutAllConcat(out, size, first + HeaderTexts(|list|, linger), [list]);
      PutOne(Contents(), size, list);
      ok := AddResponse(list);
      byteToSend := writeIdx;
    }

    /** The answer that announces a file of `n` bytes. */
    method AnswerFile(n: nat, linger: bool)
      requires Valid()
      modifies this, writeBuf
      ensures Valid() && Contents() == PutAll(old(Contents()), writeBuf.Length, FileTexts(n, linger))
      ensures byteToSend == writeIdx
    {
      hide Put, StatusLine, HeaderTexts;
      ghost var (out, size) := (Contents(), writeBuf.Length);
      var ok := AddResponse(StatusLine(200, "OK"));
      PutOne(out, size, StatusLine(200, "OK"));
      AddHeaders(n, linger);
      PutAllConcat(out, size, [StatusLine(200, "OK")], HeaderTexts(n, linger));
      byteToSend := writeIdx;
    }

    /** The error answers of process_write. */
    method AnswerError(r: Result, linger: bool) returns (ok: bool)
      requires Valid() && r != FileRequest
      modifies this, writeBuf
      ensures Valid() && Contents() == PutAll(old(Contents()), writeBuf.Length, ErrorTexts(r, linger))
      ensures ok ==> byteToSend == writeIdx
      ensures ok <==>
                |PutAll(old(Contents()), writeBuf.Length, ErrorHead(ErrorReply(r), linger))| + |ErrorReply(r).form| + 1
                      < writeBuf.Length
    {
      hide Put, StatusLine, HeaderTexts, ErrorReply;
      ghost var (out, size) := (Contents(), writeBuf.Length);
      var reply := ErrorReply(r);
      ok := AddResponse(StatusLine(reply.status, reply.title));
      AddHeaders(|reply.form|, linger);
      PutAllConcat(out, size, [StatusLine(reply.status, reply.title)], HeaderTexts(|reply.form|, linger));
      PutOne(out, size, StatusLine(reply.status, reply.title));
      PutAllConcat(out, size, [StatusLine(reply.status, reply.title)] + HeaderTexts(|reply.form|, linger),
                   [reply.form]);
      PutOne(Contents(), size, reply.form);
      ok := AddResponse(reply.form);
      if !ok {
        return;
      }
      byteToSend := writeIdx;
    }
  }

  lemma PutTwo(out: seq<char>, size: nat, a: seq<char>, b: seq<char>)
    ensures PutAll(out, size, [a, b]) == Put(Put(out, size, a), size, b)
  {
    hide Put;
    assert [a, b][1..] == [b];
    PutOne(Put(out, size, a), size, b);
  }

  lemma PutOne(out: seq<char>, size: nat, a: seq<char>)
    ensures PutAll(out, size, [a]) == Put(out, size, a)
  {
    hide Put;
    assert [a][1..] == [];
  }

  lemma PutThree(out: seq<char>, size: nat, a: seq<char>, b: seq<char>, c: seq<char>)
    ensures PutAll(out, size, [a, b, c]) == Put(Put(Put(out, size, a), size, b), size, c)
  {
    hide Put;
    var o := Put(out, size, a);
    assert [a, b, c][1..] == [b, c] && [b, c][1..] == [c];
    assert PutAll(o, size, [b, c]) == PutAll(Put(o, size, b), size, [c]);
    PutOne(Put(o, size, b), size, c);
  }

  lemma {:induction false} PutAllConcat(out: seq<char>, size: nat, a: seq<seq<char>>, b: seq<seq<char>>)
    ensures PutAll(out, size, a + b) == PutAll(PutAll(out, size, a), size, b)
    decreases |a|
  {
    hide Put;
    if a == [] {
      assert a + b == b;
    } else {
      assert (a + b)[0] == a[0] && (a + b)[1..] == a[1..] + b;
      PutAllConcat(Put(out, size, a[0]), size, a[1..], b);
    }
  }

  function Concat(texts: seq<seq<char>>): seq<char> {
    if texts == [] then [] else texts[0] + Concat(texts[1..])
  }

  /** Appends that fit together are all made. */
  lemma {:induction false} PutAllFits(out: seq<char>, size: nat, texts: seq<seq<char>>)
    requires |out| + |Concat(texts)| + 1 < size
    ensures PutAll(out, size, texts) == out + Concat(texts)
    decreases |texts|
  {
    if texts == [] {
      assert out + [] == out;
    } else {
      PutAllFits(out + texts[0], size, texts[1..]);
      assert out + texts[0] + Concat(texts[1..]) == out + (texts[0] + Concat(texts[1..]));
    }
  }

  lemma {:induction false} ConcatOfConcat(a: seq<seq<char>>, b: seq<seq<char>>)
    ensures Concat(a + b) == Concat(a) + Concat(b)
    decreases |a|
  {
    if a == [] {
      assert a + b == b;
    } else {
      assert (a + b)[0] == a[0] && (a + b)[1..] == a[1..] + b;
      ConcatOfConcat(a[1..], b);
      Assoc(a[0], Concat(a[1..]), Concat(b));
    }
  }

  function Pow10(k: nat): nat {
    if k == 0 then 1 else 10 * Pow10(k - 1)
  }

  lemma {:induction false} ItoaShort(n: nat, digits: nat)
    requires digits >= 1 && n < Pow10(digits)
    ensures |Itoa(n)| <= digits
    decreases digits
  {
    if n >= 10 {
      ItoaShort(n / 10, digits - 1);
    }
  }

  /** The headers of every answer, as the lines that were printed. */
  function AnswerHeaders(types: seq<seq<char>>, n: nat, linger: bool): seq<seq<char>> {
    types + [LENGTH + " " + Itoa(n), LINGER + " " + LingerValue(linger)]
  }

  lemma HeaderTextsPrint(n: nat, linger: bool)
    ensures Concat(HeaderTexts(n, linger)) == Print(AnswerHeaders([], n, linger) + [""])
  {
    var (a, b) := (LENGTH + " " + Itoa(n), LINGER + " " + LingerValue(linger));
    hide LENGTH, LINGER, Itoa, LingerValue;
    assert HeaderTexts(n, linger) == [a + "\r\n", b + "\r\n", "\r\n"];
    assert AnswerHeaders([], n, linger) + [""] == [a, b, ""];
    ThreeTexts(a, b);
  }

  lemma ThreeTexts(a: seq<char>, b: seq<char>)
    ensures Concat([a + "\r\n", b + "\r\n", "\r\n"]) == Print([a, b, ""])
  {
    var (x, y, z) := (a + "\r\n", b + "\r\n", "\r\n");
    assert [x, y, z][1..] == [y, z] && [y, z][1..] == [z] && [z][1..] == [];
    assert [a, b, ""][1..] == [b, ""] && [b, ""][1..] == [""] && [""][1..] == [];
    assert Concat([z]) == z + [] == z && Print([""]) == z;
    assert Concat([y, z]) == y + z == Print([b, ""]);
  }
}
