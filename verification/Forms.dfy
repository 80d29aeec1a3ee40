/**
 The parts of do_request that read a form body out of the read buffer: file upload and login.  They
 run after parse_content has put a NUL behind the body.
 */
module Forms {
  import opened CString
  import opened HttpParse
  import opened Reference
  import opened Printer

  ghost predicate OccursAt(t: seq<char>, m: nat, pat: seq<char>) {
    m + |pat| <= |t| && t[m..m + |pat|] == pat
  }

  /** strstr on the C string `t`, starting at `from`. */
  function StrStr(t: seq<char>, from: nat, pat: seq<char>): (r: Ptr)
    requires from <= |t|
    ensures r.At? ==> from <= r.i && OccursAt(t, r.i, pat) && forall m :: from <= m < r.i ==> !OccursAt(t, m, pat)
    ensures r.Null? ==> forall m :: from <= m ==> !OccursAt(t, m, pat)
    decreases |t| - from
  {
    if from + |pat| > |t| then Null
    else if t[from..from + |pat|] == pat then At(from)
    else StrStr(t, from + 1, pat)
  }

  lemma StrStrIs(t: seq<char>, from: nat, pat: seq<char>, k: nat)
    requires from <= k && from <= |t| && OccursAt(t, k, pat) && forall m :: from <= m < k ==> !OccursAt(t, m, pat)
    ensures StrStr(t, from, pat) == At(k)
  {
  }

  // ---- upload ----

  const FILENAME := "filename=\""
  const CRLF := "\r\n"
  const BLANKLINE := "\r\n\r\n"

  /** What the upload branch finds in the body: where the file name stands, and the range that is written. */
  datatype Upload = Upload(nameFrom: nat, nameTo: nat, from: nat, to: int)

  /** The chain of strstr and strchr calls on the body `t`, for the boundary string `b`; `n` is the
      number of body bytes in the buffer. */
  function FindUpload(t: seq<char>, n: nat, b: seq<char>): (r: Option<Upload>)
    ensures r.Some? ==> r.value.nameFrom <= r.value.nameTo < |t| && r.value.from <= |t|
  {
    Locate(t, n, b, FILENAME, BLANKLINE)
  }

  /** The chain of searches, for the text that opens the file name and the one that opens the content. */
  function Locate(t: seq<char>, n: nat, b: seq<char>, opening: seq<char>, mark: seq<char>): (r: Option<Upload>)
    ensures r.Some? ==> r.value.nameFrom <= r.value.nameTo < |t| && r.value.from <= |t|
  {
    var part := StrStr(t, 0, b);
    if part.Null? then None else
    var key := StrStr(t, part.i, opening);
    if key.Null? then None else
    var name := key.i + |opening|;
    var quote := Find(t, name, {'"'});
    if quote == |t| then None else
    var blank := StrStr(t, quote, mark);
    if blank.Null? then None else
    var from := blank.i + |mark|;
    var end := StrStr(t, from, b);
    Some(Upload(name, quote, from, if end.Null? then n else end.i - 2))
  }

  /** Header lines of a body part, each led in by the CRLF that ends the line before it. */
  function PartHeaders(lines: seq<seq<char>>): seq<char> {
    if lines == [] then [] else CRLF + lines[0] + PartHeaders(lines[1..])
  }

  /** What stands before the file name in a one-file form with field name `field`. */
  function FormHead(b: seq<char>, field: seq<char>): seq<char> {
    "--" + b + "\r\nContent-Disposition: form-data; name=\"" + field + "\"; "
  }

  /** A form with a file part: the parts ahead of it, its field name, file name and further header lines, the
      content of the file, and what follows the boundary behind it. */
  datatype Form = Form(before: seq<char>, boundary: seq<char>, field: seq<char>, name: seq<char>,
                       lines: seq<seq<char>>, content: seq<char>, tail: seq<char>)

  /** What stands ahead of the content, and what follows from there on. */
  function Ahead(f: Form): seq<char> {
    (f.before + FormHead(f.boundary, f.field)) + FILENAME + f.name + "\"" + PartHeaders(f.lines) + BLANKLINE
  }

  function Behind(f: Form): seq<char> {
    f.content + CRLF + "--" + f.boundary + f.tail
  }

  /** The form body, as section 5.1.1 of RFC 2046 lays it out. */
  function FormBody(f: Form): seq<char> {
    Ahead(f) + Behind(f)
  }

  /** What the form must not contain: quotes in boundary and names, blank part headers, and the boundary ahead of
      the closing delimiter. */
  ghost predicate Encodable(f: Form) {
    && '"' !in f.boundary && '"' !in f.field && '"' !in f.name
    && (forall k :: 0 <= k < |f.lines| ==> f.lines[k] != [] && '\r' !in f.lines[k])
    && (forall m :: 0 <= m < |f.content| + 4 ==> !OccursAt(Behind(f), m, f.boundary))
  }

  /** From the first boundary up to the file part the file name's key does not occur. */
  ghost predicate KeyIsFirst(f: Form) {
    var part := StrStr(FormBody(f), 0, f.boundary);
    part.At? ==> forall m: nat :: part.i <= m ==> !OccursAt(f.before, m, FILENAME)
  }

  /** What the upload branch finds in a body whose bytes are `t`: the searches stop at the first NUL, and without
      a closing boundary everything up to the end of the filled part is written. */
  function ReadForm(t: seq<char>, b: seq<char>): (r: Option<Upload>)
    ensures r.Some? ==> r.value.nameFrom <= r.value.nameTo < |t| && r.value.from <= |CStr(t, 0)|
  {
    FindUpload(CStr(t, 0), |t|, b)
  }

  /** The upload branch stores these bytes under this name. */
  ghost predicate Stores(t: seq<char>, r: Option<Upload>, name: seq<char>, bytes: seq<char>) {
    && r.Some? && r.value.nameFrom <= r.value.nameTo <= |t| && r.value.from <= r.value.to <= |t|
    && t[r.value.nameFrom..r.value.nameTo] == name
    && t[r.value.from..r.value.to] == bytes
  }

  /** It recovers exactly the file name, and the content with the CRLF before the delimiter. */
  ghost predicate Recovers(t: seq<char>, r: Option<Upload>, name: seq<char>, content: seq<char>) {
    Stores(t, r, name, content + CRLF)
  }

  /** The branch reads the file name where it stands, and the content with the CRLF where it stands. */
  predicate InPlace(f: Form, r: Option<Upload>) {
    var name := |f.before| + |FormHead(f.boundary, f.field)| + 10;
    r == Some(Upload(name, name + |f.name|, |Ahead(f)|, |Ahead(f)| + |f.content| + 2))
  }

  /** A field name that ends like the key, without its quote. */
  predicate EndsInKey(field: seq<char>) {
    |field| >= 9 && field[|field| - 9..] == "filename="
  }

  lemma Differs(t: seq<char>, m: nat, pat: seq<char>, k: nat)
    requires k < |pat| && (m + k < |t| ==> t[m + k] != pat[k])
    ensures !OccursAt(t, m, pat)
  {
    assert m + |pat| <= |t| ==> t[m..m + |pat|][k] == t[m + k];
  }

  /** The first blank line behind the part headers is the one that ends them. */
  lemma {:induction false} HeadersEnd(lines: seq<seq<char>>, rest: seq<char>, m: nat)
    requires forall k :: 0 <= k < |lines| ==> lines[k] != [] && '\r' !in lines[k]
    requires m < |PartHeaders(lines)|
    ensures !OccursAt(PartHeaders(lines) + BLANKLINE + rest, m, BLANKLINE)
  {
    var t := PartHeaders(lines) + BLANKLINE + rest;
    var (h, u) := (lines[0], PartHeaders(lines[1..]) + BLANKLINE + rest);
    assert t == CRLF + h + u;
    if m == 0 {
      assert t[2] == h[0];
      Differs(t, m, BLANKLINE, 2);
    } else if m == 1 {
      Differs(t, m, BLANKLINE, 0);
    } else if m < |h| + 2 {
      assert t[m] == h[m - 2];
      Differs(t, m, BLANKLINE, 0);
    } else {
      var m' := m - |h| - 2;
      assert t[m..] == u[m'..];
      HeadersEnd(lines[1..], rest, m');
      assert m + 4 <= |t| ==> t[m..m + 4] == t[m..][..4] && u[m'..m' + 4] == u[m'..][..4];
    }
  }

  const INTRO := "\r\nContent-Disposition: form-data; name="

  /** The key cannot end in `p`, the text before the field name's opening quote, nor at that quote. */
  lemma NoKeyInIntro(b: seq<char>, u: seq<char>, m: nat)
    requires '"' !in b && m + 9 <= 2 + |b| + |INTRO|
    ensures !OccursAt("--" + b + INTRO + "\"" + u, m, FILENAME)
  {
    var p := "--" + b + INTRO;
    var t := p + "\"" + u;
    if m + 9 < |p| {
      assert t[m + 9] == p[m + 9];
      NoQuoteBefore(b, m + 9);
      Differs(t, m, FILENAME, 9);
    } else {
      assert t[m + 3] == p[m + 3] == INTRO[|INTRO| - 6];
      Differs(t, m, FILENAME, 3);
    }
  }

  /** The key cannot end in the field name. */
  lemma NoKeyInField(p: seq<char>, field: seq<char>, u: seq<char>, m: nat)
    requires '"' !in field && |p| < m + 9 < |p| + 1 + |field|
    ensures !OccursAt(p + "\"" + field + u, m, FILENAME)
  {
    var t := p + "\"" + field + u;
    assert t[m + 9] == field[m + 9 - |p| - 1];
    Differs(t, m, FILENAME, 9);
  }

  /** It ends at the quote behind the field name exactly when the field name ends like it. */
  lemma KeyAtQuote(p: seq<char>, field: seq<char>, u: seq<char>, m: nat)
    requires '"' !in field && m + 9 == |p| + 1 + |field|
    ensures OccursAt(p + "\"" + field + "\"" + u, m, FILENAME) <==> EndsInKey(field)
  {
    var t := p + "\"" + field + "\"" + u;
    if m <= |p| {
      assert t[m + (|p| - m)] == '"';
      Differs(t, m, FILENAME, |p| - m);
    } else {
      assert t[m..m + 9] == field[|field| - 9..];
      assert t[m..m + 10] == t[m..m + 9] + "\"";
      assert FILENAME == "filename=" + "\"" && FILENAME[..9] == "filename=";
      assert t[m..m + 10][..9] == t[m..m + 9];
    }
  }

  /** It cannot end between that quote and the file name's. */
  lemma NoKeyBehind(q: seq<char>, rest: seq<char>, m: nat)
    requires |q| <= m + 9 < |q| + 11
    ensures !OccursAt(q + "; filename=" + "\"" + rest, m, FILENAME)
  {
    var t := q + "; filename=" + "\"" + rest;
    assert t[m + 9] == "; filename="[m + 9 - |q|];
    Differs(t, m, FILENAME, 9);
  }

  /** It cannot begin in the earlier parts. */
  lemma NoKeyBefore(before: seq<char>, u: seq<char>, m: nat)
    requires !OccursAt(before, m, FILENAME) && m < |before|
    ensures !OccursAt(before + "--" + u, m, FILENAME)
  {
    var t := before + "--" + u;
    if m + 10 <= |before| {
      assert t[m..m + 10] == before[m..m + 10];
    } else {
      assert t[m + (|before| - m)] == '-';
      Differs(t, m, FILENAME, |before| - m);
    }
  }

  /** The head of the file part with what follows it, as the lemmas above see it. */
  lemma HeadViews(b: seq<char>, field: seq<char>, rest: seq<char>)
    ensures var (t, p) := (FormHead(b, field) + FILENAME + rest, "--" + b + INTRO);
            && t == p + "\"" + field + ("\"" + "; filename=" + "\"" + rest)
            && t == p + "\"" + (field + ("\"" + "; filename=" + "\"" + rest))
            && t == p + "\"" + field + "\"" + ("; filename=" + "\"" + rest)
            && t == (p + "\"" + field + "\"") + "; filename=" + "\"" + rest
            && |FormHead(b, field)| == |p| + 1 + |field| + 3
  {
    HeadIs(b, field);
    hide FormHead;
    Bracketed("--" + b + INTRO, "\"", field, "\"; ", FILENAME, "; filename=", rest);
  }

  lemma HeadIs(b: seq<char>, field: seq<char>)
    ensures FormHead(b, field) == ("--" + b + INTRO) + "\"" + field + "\"; "
    ensures "\"; " + FILENAME == "\"" + "; filename=" + "\""
  {
  }

  lemma Bracketed(p: seq<char>, q: seq<char>, f: seq<char>, s: seq<char>, k: seq<char>, y: seq<char>, rest: seq<char>)
    requires s + k == q + y + q
    ensures var t := (p + q + f + s) + k + rest;
            && t == p + q + f + (q + y + q + rest) && t == p + q + (f + (q + y + q + rest))
            && t == p + q + f + q + (y + q + rest) && t == (p + q + f + q) + y + q + rest
  {
    assert (p + q + f + s) + k + rest == p + q + f + (s + k) + rest;
  }

  /** It begins with the delimiter. */
  lemma HeadStarts(b: seq<char>, field: seq<char>, u: seq<char>)
    ensures var w := FormHead(b, field)[2 + |b|..] + u;
            FormHead(b, field) + u == "--" + (b + w) && OccursAt(FormHead(b, field) + u, 2, b)
  {
    assert FormHead(b, field)[..2 + |b|] == "--" + b;
    assert (FormHead(b, field) + u)[2..2 + |b|] == b;
  }

  /** Where the key first occurs in the file part: at its place, or at the end of the field name. */
  function KeyPlace(b: seq<char>, field: seq<char>): nat {
    if EndsInKey(field) then |FormHead(b, field)| - 12 else |FormHead(b, field)|
  }

  lemma KeyInPart(b: seq<char>, field: seq<char>, rest: seq<char>)
    requires '"' !in b && '"' !in field
    ensures var t := FormHead(b, field) + FILENAME + rest;
            && OccursAt(t, KeyPlace(b, field), FILENAME)
            && forall m :: 0 <= m < KeyPlace(b, field) ==> !OccursAt(t, m, FILENAME)
  {
    hide OccursAt, FormHead, EndsInKey;
    HeadViews(b, field, rest);
    var (t, p, h) := (FormHead(b, field) + FILENAME + rest, "--" + b + INTRO, |FormHead(b, field)|);
    var u := "\"" + "; filename=" + "\"" + rest;
    KeyAtQuote(p, field, "; filename=" + "\"" + rest, h - 12);
    OccursThere(FormHead(b, field), FILENAME, rest);
    forall m | 0 <= m < KeyPlace(b, field)
      ensures !OccursAt(t, m, FILENAME)
    {
      if m + 9 <= |p| {
        NoKeyInIntro(b, field + u, m);
      } else if m + 9 < |p| + 1 + |field| {
        NoKeyInField(p, field, u, m);
      } else if m + 9 > |p| + 1 + |field| {
        NoKeyBehind(p + "\"" + field + "\"", rest, m);
      }
    }
  }

  lemma OccursThere(p: seq<char>, pat: seq<char>, rest: seq<char>)
    ensures OccursAt(p + pat + rest, |p|, pat)
  {
    assert (p + pat + rest)[|p|..|p| + |pat|] == pat;
  }

  lemma NoQuoteBefore(b: seq<char>, k: nat)
    requires '"' !in b && k < |"--" + b + INTRO|
    ensures ("--" + b + INTRO)[k] != '"'
  {
    assert '"' !in INTRO;
    var p := "--" + b + INTRO;
    if k >= 2 + |b| {
      assert p[k] == INTRO[k - 2 - |b|];
    } else if k >= 2 {
      assert p[k] == b[k - 2];
    }
  }

  lemma OccursBehind(p: seq<char>, u: seq<char>, m: nat, pat: seq<char>)
    ensures OccursAt(p + u, |p| + m, pat) <==> OccursAt(u, m, pat)
  {
    assert m + |pat| <= |u| ==> (p + u)[|p| + m..|p| + m + |pat|] == u[m..m + |pat|];
  }

  /** A search that starts behind `p` finds what a search of the rest finds. */
  lemma FoundBehind(p: seq<char>, u: seq<char>, pat: seq<char>, k: nat)
    requires OccursAt(u, k, pat) && forall m :: 0 <= m < k ==> !OccursAt(u, m, pat)
    ensures StrStr(p + u, |p|, pat) == At(|p| + k)
  {
    hide OccursAt, StrStr;
    OccursBehind(p, u, k, pat);
    forall m | |p| <= m < |p| + k
      ensures !OccursAt(p + u, m, pat)
    {
      OccursBehind(p, u, m - |p|, pat);
    }
    StrStrIs(p + u, |p|, pat, |p| + k);
  }

  /** The search for the key, from anywhere up to the file part. */
  lemma KeyFound(before: seq<char>, b: seq<char>, field: seq<char>, rest: seq<char>, from: nat)
    requires '"' !in b && '"' !in field && from <= |before| + 2
    requires forall m: nat :: from <= m ==> !OccursAt(before, m, FILENAME)
    ensures StrStr(before + (FormHead(b, field) + FILENAME + rest), from, FILENAME) == At(|before| + KeyPlace(b, field))
  {
    hide OccursAt, FormHead, KeyPlace, StrStr;
    var (v, k) := (FormHead(b, field) + FILENAME + rest, KeyPlace(b, field));
    KeyInPart(b, field, rest);
    HeadStarts(b, field, FILENAME + rest);
    var u := b + (FormHead(b, field)[2 + |b|..] + (FILENAME + rest));
    assert v == FormHead(b, field) + (FILENAME + rest);
    assert before + v == before + "--" + u;
    OccursBehind(before, v, k, FILENAME);
    PlaceIsLate(b, field);
    forall m | from <= m < |before| + k
      ensures !OccursAt(before + v, m, FILENAME)
    {
      if m < |before| {
        NoKeyBefore(before, u, m);
      } else {
        OccursBehind(before, v, m - |before|, FILENAME);
      }
    }
    StrStrIs(before + v, from, FILENAME, |before| + k);
  }

  lemma PlaceIsLate(b: seq<char>, field: seq<char>)
    ensures KeyPlace(b, field) >= 2
  {
  }

  lemma QuoteFound(p: seq<char>, name: seq<char>, rest: seq<char>)
    requires '"' !in name
    ensures Find(p + name + "\"" + rest, |p|, {'"'}) == |p| + |name|
    ensures (p + name + "\"" + rest)[|p|..|p| + |name|] == name
  {
    var t := p + name + "\"" + rest;
    forall m | |p| <= m < |p| + |name|
      ensures t[m] !in {'"'}
    {
      assert t[m] == name[m - |p|];
    }
    FindIs(t, |p|, {'"'}, |p| + |name|);
  }

  lemma NotHere(t: seq<char>, i: nat, pat: seq<char>)
    requires i < |t| && pat != [] && t[i] != pat[0]
    ensures StrStr(t, i, pat) == StrStr(t, i + 1, pat)
  {
    if i + |pat| <= |t| {
      assert t[i..i + |pat|][0] == t[i];
    }
  }

  lemma BlankInRest(lines: seq<seq<char>>, end: seq<char>)
    requires forall k :: 0 <= k < |lines| ==> lines[k] != [] && '\r' !in lines[k]
    ensures var (h, u) := (PartHeaders(lines), PartHeaders(lines) + BLANKLINE + end);
            OccursAt(u, |h|, BLANKLINE) && forall m :: 0 <= m < |h| ==> !OccursAt(u, m, BLANKLINE)
  {
    hide PartHeaders;
    var (h, u) := (PartHeaders(lines), PartHeaders(lines) + BLANKLINE + end);
    assert u[|h|..|h| + 4] == BLANKLINE;
    hide OccursAt;
    forall m | 0 <= m < |h|
      ensures !OccursAt(u, m, BLANKLINE)
    {
      HeadersEnd(lines, end, m);
    }
  }

  lemma BlankFound(p: seq<char>, lines: seq<seq<char>>, end: seq<char>)
    requires forall k :: 0 <= k < |lines| ==> lines[k] != [] && '\r' !in lines[k]
    ensures StrStr(p + "\"" + PartHeaders(lines) + BLANKLINE + end, |p|, BLANKLINE) ==
              At(|p| + 1 + |PartHeaders(lines)|)
  {
    hide PartHeaders, OccursAt, StrStr;
    var h := PartHeaders(lines);
    BlankInRest(lines, end);
    FoundBehind(p + "\"", h + BLANKLINE + end, BLANKLINE, |h|);
    assert p + "\"" + (h + BLANKLINE + end) == p + "\"" + h + BLANKLINE + end;
    NotHere(p + "\"" + h + BLANKLINE + end, |p|, BLANKLINE);
  }

  lemma EndFound(p: seq<char>, content: seq<char>, b: seq<char>, tail: seq<char>)
    requires forall m :: 0 <= m < |content| + 4 ==> !OccursAt(content + CRLF + "--" + b + tail, m, b)
    ensures StrStr(p + (content + CRLF + "--" + b + tail), |p|, b) == At(|p| + |content| + 4)
  {
    var u := content + CRLF + "--" + b + tail;
    assert u[|content| + 4..|content| + 4 + |b|] == b;
    FoundBehind(p, u, b, |content| + 4);
  }

  /** The name that is read: the file name, or what stands between the field name and the file name. */
  function NameRead(field: seq<char>, name: seq<char>): seq<char> {
    if EndsInKey(field) then "; filename=" else name
  }

  /** Behind the field name stands the text that is misread. */
  lemma NameEarly(before: seq<char>, b: seq<char>, field: seq<char>, rest: seq<char>)
    ensures var (t, i) := (before + (FormHead(b, field) + FILENAME + rest), |before| + |FormHead(b, field)| - 2);
            |before| <= i && i + 11 < |t| && Find(t, i, {'"'}) == i + 11 && t[i..i + 11] == "; filename="
  {
    hide Find, FormHead;
    HeadViews(b, field, rest);
    QuoteBehind(before, "--" + b + INTRO + "\"" + field + "\"", "; filename=", rest);
  }

  /** Behind the key at its place stands the file name. */
  lemma NameLate(before: seq<char>, h: seq<char>, name: seq<char>, u: seq<char>)
    requires '"' !in name
    ensures var (t, i) := (before + (h + FILENAME + (name + "\"" + u)), |before| + |h| + 10);
            i + |name| < |t| && Find(t, i, {'"'}) == i + |name| && t[i..i + |name|] == name
  {
    hide Find;
    QuoteBehind(before, h + FILENAME, name, u);
    assert h + FILENAME + (name + "\"" + u) == (h + FILENAME) + name + "\"" + u;
  }

  /** The quote behind `name`, which stands behind `a` and `b`. */
  lemma QuoteBehind(a: seq<char>, b: seq<char>, name: seq<char>, rest: seq<char>)
    requires '"' !in name
    ensures var (t, i) := (a + (b + name + "\"" + rest), |a| + |b|);
            && i + |name| < |t| && Find(t, i, {'"'}) == i + |name| && t[i..i + |name|] == name
            && t == a + (b + (name + "\"" + rest))
  {
    hide Find;
    var t := a + (b + name + "\"" + rest);
    assert t == (a + b) + name + "\"" + rest;
    assert t == a + (b + (name + "\"" + rest));
    QuoteFound(a + b, name, rest);
  }

  /** The first search in a form. */
  lemma PartFound(before: seq<char>, b: seq<char>, field: seq<char>, rest: seq<char>)
    ensures var part := StrStr(before + (FormHead(b, field) + FILENAME + rest), 0, b);
            part.At? && part.i <= |before| + 2
  {
    hide OccursAt, FormHead, StrStr;
    var v := FormHead(b, field) + FILENAME + rest;
    HeadStarts(b, field, FILENAME + rest);
    assert v == FormHead(b, field) + (FILENAME + rest);
    OccursBehind(before, v, 2, b);
    FoundAtMost(before + v, 0, b, |before| + 2);
  }

  /** The quote that ends the name, and the name. */
  lemma NameFound(before: seq<char>, b: seq<char>, field: seq<char>, name: seq<char>, u: seq<char>)
    requires '"' !in name
    ensures var t := before + (FormHead(b, field) + FILENAME + (name + "\"" + u));
            var from := |before| + KeyPlace(b, field) + 10;
            var quote := from + |NameRead(field, name)|;
            quote < |t| && Find(t, from, {'"'}) == quote && t[from..quote] == NameRead(field, name)
  {
    hide FormHead, Find, EndsInKey;
    if EndsInKey(field) {
      NameEarly(before, b, field, name + "\"" + u);
    } else {
      NameLate(before, FormHead(b, field), name, u);
    }
  }

  lemma FoundAtMost(t: seq<char>, from: nat, pat: seq<char>, k: nat)
    requires from <= k && from <= |t| && OccursAt(t, k, pat)
    ensures StrStr(t, from, pat).At? && StrStr(t, from, pat).i <= k
  {
  }

  /** From a place without CR behind it the blank line is found where it is found from there on. */
  lemma {:induction false} BlankFromEarlier(t: seq<char>, i: nat, j: nat)
    requires i <= j <= |t| && forall m :: i <= m < j ==> t[m] != '\r'
    ensures StrStr(t, i, BLANKLINE) == StrStr(t, j, BLANKLINE)
    decreases j - i
  {
    if i < j {
      NotHere(t, i, BLANKLINE);
      BlankFromEarlier(t, i + 1, j);
    }
  }

  /** The blank line that is found from the end of the name on. */
  lemma BlankIsFound(head: seq<char>, field: seq<char>, name: seq<char>, lines: seq<seq<char>>, end: seq<char>)
    requires forall k :: 0 <= k < |lines| ==> lines[k] != [] && '\r' !in lines[k]
    requires EndsInKey(field) ==> name == "; filename="
    ensures var (p, h) := (head + FILENAME + name, PartHeaders(lines));
            var quote := |head| + if EndsInKey(field) then 9 else 10 + |name|;
            StrStr(p + "\"" + h + BLANKLINE + end, quote, BLANKLINE) == At(|p| + 1 + |h|)
  {
    hide StrStr, PartHeaders, EndsInKey;
    var (p, h) := (head + FILENAME + name, PartHeaders(lines));
    BlankFound(p, lines, end);
    if EndsInKey(field) {
      NoCr(head, "\"" + h + BLANKLINE + end);
      var t := p + "\"" + h + BLANKLINE + end;
      assert t == p + ("\"" + h + BLANKLINE + end);
      BlankFromEarlier(t, |head| + 9, |p|);
    }
  }

  /** The form body, bracketed as the searches for the name see it. */
  lemma Views(before: seq<char>, fileHead: seq<char>, name: seq<char>, h: seq<char>, end: seq<char>)
    ensures ((before + fileHead) + FILENAME + name + "\"" + h + BLANKLINE) + end
         == before + (fileHead + FILENAME + (name + "\"" + (h + BLANKLINE + end)))
  {
  }

  lemma HeadLength(f: Form)
    ensures 2 + |f.boundary| <= |FormHead(f.boundary, f.field)| && 4 <= |Ahead(f)|
    ensures |f.before| + |FormHead(f.boundary, f.field)| + 14 <= |Ahead(f)|
  {
    hide PartHeaders;
  }

  /** The first search: the first boundary is not behind the one of the file part. */
  lemma PartInBody(f: Form)
    ensures var part := StrStr(FormBody(f), 0, f.boundary); part.At? && part.i <= |f.before| + 2
  {
    hide OccursAt, FormHead, StrStr, PartHeaders, Behind;
    var (fileHead, h) := (FormHead(f.boundary, f.field), PartHeaders(f.lines));
    Views(f.before, fileHead, f.name, h, Behind(f));
    PartFound(f.before, f.boundary, f.field, f.name + "\"" + (h + BLANKLINE + Behind(f)));
  }

  /** The second and third search in an encoded form, and the name they find. */
  lemma NameInBody(f: Form)
    requires Encodable(f) && KeyIsFirst(f)
    ensures var t := FormBody(f);
            var (part, key) := (StrStr(t, 0, f.boundary), |f.before| + KeyPlace(f.boundary, f.field));
            var quote := key + 10 + |NameRead(f.field, f.name)|;
            && part.At? && part.i <= |f.before| + 2 && StrStr(t, part.i, FILENAME) == At(key)
            && quote < |t| && Find(t, key + 10, {'"'}) == quote && t[key + 10..quote] == NameRead(f.field, f.name)
  {
    hide OccursAt, FormHead, StrStr, PartHeaders, Find, KeyPlace, EndsInKey, NameRead, Behind;
    var (fileHead, h) := (FormHead(f.boundary, f.field), PartHeaders(f.lines));
    PartInBody(f);
    var part := StrStr(FormBody(f), 0, f.boundary).i;
    Views(f.before, fileHead, f.name, h, Behind(f));
    KeyFound(f.before, f.boundary, f.field, f.name + "\"" + (h + BLANKLINE + Behind(f)), part);
    NameFound(f.before, f.boundary, f.field, f.name, h + BLANKLINE + Behind(f));
  }

  /** The last two searches in an encoded form. */
  lemma ContentInBody(f: Form)
    requires Encodable(f) && (EndsInKey(f.field) ==> f.name == "; filename=")
    ensures var (t, from) := (FormBody(f), |Ahead(f)|);
            var quote := |f.before| + KeyPlace(f.boundary, f.field) + 10 + |f.name|;
            && 4 <= from && from + |f.content| + 4 <= |t| && quote <= from - 4
            && StrStr(t, quote, BLANKLINE) == At(from - 4) && StrStr(t, from, f.boundary) == At(from + |f.content| + 4)
  {
    hide OccursAt, FormHead, StrStr, PartHeaders, KeyPlace, EndsInKey;
    QuotePlace(f.before, f.boundary, f.field, f.name);
    BlankIsFound(f.before + FormHead(f.boundary, f.field), f.field, f.name, f.lines, Behind(f));
    EndFound(Ahead(f), f.content, f.boundary, f.tail);
  }

  /** Where the name that is read ends: behind the file name, or at its opening quote. */
  lemma QuotePlace(before: seq<char>, b: seq<char>, field: seq<char>, name: seq<char>)
    ensures var quote := |before| + KeyPlace(b, field) + 10 + |NameRead(field, name)|;
            quote == |before + FormHead(b, field)| + if EndsInKey(field) then 9 else 10 + |name|
  {
    hide EndsInKey;
  }

  lemma NoCr(head: seq<char>, u: seq<char>)
    ensures forall m :: |head| + 9 <= m < |head| + 21 ==> (head + FILENAME + "; filename=" + u)[m] != '\r'
  {
    var v := FILENAME + "; filename=";
    assert head + FILENAME + "; filename=" + u == head + v + u;
    assert '\r' !in v;
    forall m | |head| + 9 <= m < |head| + 21
      ensures (head + v + u)[m] != '\r'
    {
      assert (head + v + u)[m] == v[m - |head|];
    }
  }

  // ---- the body ends at its first NUL ----

  /** A search in a prefix finds the same, or nothing if the hit does not lie in it. */
  lemma FoundInPrefix(t: seq<char>, z: nat, from: nat, pat: seq<char>)
    requires from <= z <= |t|
    ensures var r := StrStr(t, from, pat);
            StrStr(t[..z], from, pat) == if r.At? && r.i + |pat| <= z then r else Null
  {
    hide StrStr, OccursAt;
    var r := StrStr(t, from, pat);
    forall m: nat
      ensures OccursAt(t[..z], m, pat) <==> m + |pat| <= z && OccursAt(t, m, pat)
    {
      OccursInPrefix(t, z, m, pat);
    }
    if r.At? && r.i + |pat| <= z {
      StrStrIs(t[..z], from, pat, r.i);
    }
  }

  lemma OccursInPrefix(t: seq<char>, z: nat, m: nat, pat: seq<char>)
    requires z <= |t|
    ensures OccursAt(t[..z], m, pat) <==> m + |pat| <= z && OccursAt(t, m, pat)
  {
    if m + |pat| <= z {
      assert t[..z][m..m + |pat|] == t[m..m + |pat|];
    }
  }

  lemma CharInPrefix(t: seq<char>, z: nat, i: nat, cs: set<char>)
    requires i <= z <= |t| && Find(t, i, cs) < z
    ensures Find(t[..z], i, cs) == Find(t, i, cs)
  {
    FindIs(t[..z], i, cs, Find(t, i, cs));
  }

  /** Where the C string of a form body ends. */
  lemma EndOfText(f: Form)
    requires NUL !in Ahead(f)
    ensures var (t, z) := (FormBody(f), |CStr(FormBody(f), 0)|);
            && z <= |t| && CStr(t, 0) == t[..z] && |Ahead(f)| <= z
            && (NUL in f.content ==> z < |Ahead(f)| + |f.content|)
            && (NUL !in f.content ==> |Ahead(f)| + |f.content| + 4 + |f.boundary| <= z)
  {
    hide Ahead;
    var (t, z, a) := (FormBody(f), |CStr(FormBody(f), 0)|, |Ahead(f)|);
    assert forall m :: 0 <= m < a ==> t[m] == Ahead(f)[m];
    if NUL in f.content {
      var k :| 0 <= k < |f.content| && f.content[k] == NUL;
      assert t[a + k] == NUL;
    } else {
      BoundaryAhead(f);
      var u := f.content + CRLF + "--" + f.boundary;
      assert NUL !in u;
      assert forall m :: 0 <= m < |u| ==> t[a + m] == u[m];
      assert forall m :: a <= m < a + |u| ==> t[m] == u[m - a];
    }
  }

  lemma BoundaryAhead(f: Form)
    requires NUL !in Ahead(f)
    ensures NUL !in f.boundary && NUL !in CRLF + "--"
  {
    hide PartHeaders;
    forall k | 0 <= k < |f.boundary|
      ensures f.boundary[k] != NUL
    {
      assert Ahead(f)[|f.before| + 2 + k] == FormHead(f.boundary, f.field)[2 + k] == f.boundary[k];
    }
  }

  /** The chain on a prefix that the hits of its searches on the whole text lie in. */
  lemma LocateIs(t: seq<char>, z: nat, n: nat, b: seq<char>, opening: seq<char>, mark: seq<char>,
                 part: nat, key: nat, quote: nat, blank: nat)
    requires part <= z <= |t| && StrStr(t, 0, b) == At(part) && part + |b| <= z && key + |opening| <= quote < z
    requires StrStr(t, part, opening) == At(key) && Find(t, key + |opening|, {'"'}) == quote
    requires StrStr(t, quote, mark) == At(blank) && blank + |mark| <= z
    ensures var end := StrStr(t, blank + |mark|, b);
            Locate(t[..z], n, b, opening, mark) ==
              Some(Upload(key + |opening|, quote, blank + |mark|,
                          if end.At? && end.i + |b| <= z then end.i - 2 else n))
  {
    hide OccursAt, StrStr, Find;
    FoundInPrefix(t, z, 0, b);
    FoundInPrefix(t, z, part, opening);
    CharInPrefix(t, z, key + |opening|, {'"'});
    FoundInPrefix(t, z, quote, mark);
    FoundInPrefix(t, z, blank + |mark|, b);
  }

  /** What the upload branch reads from an encoded form. */
  lemma UploadRead(f: Form)
    requires Encodable(f) && KeyIsFirst(f) && NUL !in Ahead(f) && (EndsInKey(f.field) ==> f.name == "; filename=")
    ensures var (t, from) := (FormBody(f), |Ahead(f)|);
            var name := |f.before| + KeyPlace(f.boundary, f.field) + 10;
            && name + |f.name| <= from <= |t| && t[name..name + |f.name|] == f.name
            && ReadForm(t, f.boundary) ==
                 Some(Upload(name, name + |f.name|, from, if NUL in f.content then |t| else from + |f.content| + 2))
  {
    hide OccursAt, FormHead, FormBody, Ahead, Behind, StrStr, Find, Locate, KeyPlace, EndsInKey, Encodable, KeyIsFirst,
         CStr;
    var t := FormBody(f);
    var (part, key) := (StrStr(t, 0, f.boundary), |f.before| + KeyPlace(f.boundary, f.field));
    var (quote, from, z) := (key + 10 + |f.name|, |Ahead(f)|, |CStr(t, 0)|);
    NameInBody(f);
    ContentInBody(f);
    EndOfText(f);
    HeadLength(f);
    LocateIs(t, z, |t|, f.boundary, FILENAME, BLANKLINE, part.i, key, quote, from - 4);
  }

  /** The bytes that are written for an encoded form: the content with the CRLF behind it or, when the content
      holds a NUL, everything up to the end of the body, closing delimiter included. */
  lemma UploadStored(f: Form)
    requires Encodable(f) && KeyIsFirst(f) && NUL !in Ahead(f) && (EndsInKey(f.field) ==> f.name == "; filename=")
    ensures var t := FormBody(f);
            Stores(t, ReadForm(t, f.boundary), f.name, if NUL in f.content then Behind(f) else f.content + CRLF)
  {
    hide Ahead, ReadForm, Encodable, KeyIsFirst, KeyPlace, EndsInKey;
    UploadRead(f);
    var a := Ahead(f);
    assert (a + Behind(f))[|a|..] == Behind(f);
    assert (a + Behind(f))[|a|..|a| + |f.content| + 2] == Behind(f)[..|f.content| + 2] == f.content + CRLF;
  }

  lemma TextReaches(t: seq<char>, end: nat)
    requires end <= |t| && NUL !in t[..end]
    ensures end <= |CStr(t, 0)| <= |t| && CStr(t, 0) == t[..|CStr(t, 0)|]
  {
    assert forall m :: 0 <= m < end ==> t[m] == t[..end][m];
  }

  /** The name that is read, given what the first three searches find and that a blank line follows. */
  lemma NameRange(t: seq<char>, b: seq<char>, part: nat, key: nat, quote: nat, end: nat)
    requires end <= |t| && NUL !in t[..end] && part + |b| <= end && part <= key
    requires StrStr(t, 0, b) == At(part) && StrStr(t, part, FILENAME) == At(key) && key + 10 <= |t|
    requires Find(t, key + 10, {'"'}) == quote && quote + 4 <= end && OccursAt(t, end - 4, BLANKLINE)
    ensures var r := ReadForm(t, b); r.Some? && r.value.nameFrom == key + 10 && r.value.nameTo == quote
  {
    hide StrStr, Locate, OccursAt;
    var z := |CStr(t, 0)|;
    TextReaches(t, end);
    hide CStr, Find;
    FoundAtMost(t, quote, BLANKLINE, end - 4);
    LocateIs(t, z, |t|, b, FILENAME, BLANKLINE, part, key, quote, StrStr(t, quote, BLANKLINE).i);
  }

  /** The name that is read from any encoded form. */
  lemma NameIsRead(f: Form)
    requires Encodable(f) && KeyIsFirst(f) && NUL !in Ahead(f)
    ensures var (t, r) := (FormBody(f), ReadForm(FormBody(f), f.boundary));
            && r.Some? && t[r.value.nameFrom..r.value.nameTo] == NameRead(f.field, f.name)
            && r.value.nameFrom == |f.before| + KeyPlace(f.boundary, f.field) + 10
  {
    hide OccursAt, FormHead, StrStr, Find, KeyPlace, EndsInKey, NameRead, Encodable, KeyIsFirst, Behind, ReadForm;
    var t := FormBody(f);
    var key := |f.before| + KeyPlace(f.boundary, f.field);
    NameInBody(f);
    BlankInBody(f);
    HeadLength(f);
    assert t[..|Ahead(f)|] == Ahead(f);
    hide Ahead;
    NameRange(t, f.boundary, StrStr(t, 0, f.boundary).i, key, key + 10 + |NameRead(f.field, f.name)|, |Ahead(f)|);
  }

  lemma BlankInBody(f: Form)
    ensures 4 <= |Ahead(f)| && OccursAt(FormBody(f), |Ahead(f)| - 4, BLANKLINE)
    ensures |f.before| + KeyPlace(f.boundary, f.field) + 10 + |NameRead(f.field, f.name)| <= |Ahead(f)| - 4
  {
    hide OccursAt, FormHead, PartHeaders, EndsInKey, KeyPlace, NameRead, Behind;
    QuotePlace(f.before, f.boundary, f.field, f.name);
    OccursThere((f.before + FormHead(f.boundary, f.field)) + FILENAME + f.name + "\"" + PartHeaders(f.lines),
                BLANKLINE, Behind(f));
  }

  /** An upload is recovered if and only if its content holds no NUL and the field name does not end like the file
      name's key.  If it does, its closing quote completes the key, and the name that is read is what follows it. */
  lemma UploadIff(f: Form)
    requires Encodable(f) && KeyIsFirst(f) && NUL !in Ahead(f)
    ensures var t := FormBody(f);
            Recovers(t, ReadForm(t, f.boundary), f.name, f.content)
            <==> NUL !in f.content && (EndsInKey(f.field) ==> f.name == "; filename=")
  {
    hide Encodable, KeyIsFirst, FormBody, Ahead, ReadForm, EndsInKey;
    if EndsInKey(f.field) ==> f.name == "; filename=" {
      UploadStored(f);
      assert |Behind(f)| > |f.content + CRLF|;
    } else {
      NameIsRead(f);
    }
  }

  /** An occurrence of the key behind the first boundary is where the name starts at the latest. */
  lemma NameAtMost(t: seq<char>, b: seq<char>, k: nat)
    requires StrStr(CStr(t, 0), 0, b).At? && StrStr(CStr(t, 0), 0, b).i <= k && OccursAt(CStr(t, 0), k, FILENAME)
    ensures var r := ReadForm(t, b); r.Some? ==> r.value.nameFrom <= k + 10
  {
    hide StrStr, Find, CStr;
    var s := CStr(t, 0);
    FoundAtMost(s, StrStr(s, 0, b).i, FILENAME, k);
  }

  /** Name and content are read where they stand if and only if the key does not occur from the first boundary up
      to the file part, the field name does not end like it, and no NUL stands ahead of the closing delimiter. */
  lemma InPlaceIff(f: Form)
    requires Encodable(f)
    ensures InPlace(f, ReadForm(FormBody(f), f.boundary))
       <==> KeyIsFirst(f) && !EndsInKey(f.field) && NUL !in Ahead(f) && NUL !in f.content
  {
    hide Encodable, ReadForm, EndsInKey, FormHead;
    var t := FormBody(f);
    if NUL in Ahead(f) {
      hide KeyIsFirst;
      TextStops(f);
    } else if !KeyIsFirst(f) {
      KeyAhead(f);
    } else if EndsInKey(f.field) {
      hide Ahead, Behind, KeyIsFirst;
      NameIsRead(f);
    } else {
      UploadRead(f);
      assert |t| == |Ahead(f)| + |Behind(f)| && |Behind(f)| >= |f.content| + 4;
    }
  }

  lemma TextStops(f: Form)
    requires NUL in Ahead(f)
    ensures |CStr(FormBody(f), 0)| < |Ahead(f)|
  {
    hide Ahead, Behind;
    var k :| 0 <= k < |Ahead(f)| && Ahead(f)[k] == NUL;
    assert FormBody(f)[k] == NUL;
  }

  /** A key in an earlier part is found first. */
  lemma KeyAhead(f: Form)
    requires !KeyIsFirst(f) && NUL !in Ahead(f)
    ensures var r := ReadForm(FormBody(f), f.boundary); r.Some? ==> r.value.nameFrom < |f.before| + 10
  {
    hide OccursAt, StrStr, ReadForm, FormHead;
    var t := FormBody(f);
    var part := StrStr(t, 0, f.boundary);
    var m: nat :| part.i <= m && OccursAt(f.before, m, FILENAME);
    assert m + 10 <= |f.before| by { OccursEnds(f.before, m, FILENAME); }
    EndOfText(f);
    HeadLength(f);
    var z := |CStr(t, 0)|;
    PartInBody(f);
    FoundInPrefix(t, z, 0, f.boundary);
    assert t[..|f.before|] == f.before;
    OccursInPrefix(t, |f.before|, m, FILENAME);
    OccursInPrefix(t, z, m, FILENAME);
    hide FormBody, CStr;
    NameAtMost(t, f.boundary, m);
  }

  lemma OccursEnds(t: seq<char>, m: nat, pat: seq<char>)
    requires OccursAt(t, m, pat)
    ensures m + |pat| <= |t|
  {
  }

  // ---- inputs that are not recovered ----

  /** A small form with boundary "+". */
  function SmallForm(before: seq<char>, field: seq<char>, name: seq<char>, content: seq<char>): Form {
    Form(before, "+", field, name, [], content, "--")
  }

  lemma SmallIsEncodable(before: seq<char>, field: seq<char>, name: seq<char>, content: seq<char>)
    requires '"' !in field && '"' !in name && '+' !in content
    ensures Encodable(SmallForm(before, field, name, content))
  {
    var f := SmallForm(before, field, name, content);
    forall m | 0 <= m < |content| + 4
      ensures !OccursAt(Behind(f), m, "+")
    {
      assert Behind(f)[m] == (content + CRLF + "--")[m];
      Differs(Behind(f), m, "+", 0);
    }
  }

  lemma SmallIsText(before: seq<char>, field: seq<char>, name: seq<char>, content: seq<char>)
    requires NUL !in before && NUL !in field && NUL !in name
    ensures NUL !in Ahead(SmallForm(before, field, name, content))
  {
    HeadIs("+", field);
    hide FormHead;
    assert NUL !in "--" + "+" + INTRO && NUL !in "\"; " && NUL !in FILENAME && NUL !in BLANKLINE;
    assert PartHeaders([]) == [];
  }

  /** A file sent in a field that is called "filename=" is stored under another name. */
  lemma FieldNamedLikeKey(name: seq<char>, content: seq<char>)
    requires '"' !in name && NUL !in name && name != "; filename=" && '+' !in content
    ensures var f := SmallForm("", "filename=", name, content);
            var (t, r) := (FormBody(f), ReadForm(FormBody(f), "+"));
            r.Some? && t[r.value.nameFrom..r.value.nameTo] == "; filename=" && !Recovers(t, r, name, content)
  {
    hide FormBody, ReadForm, Ahead, Encodable;
    SmallIsEncodable("", "filename=", name, content);
    SmallIsText("", "filename=", name, content);
    assert forall m: nat :: !OccursAt("", m, FILENAME);
    NameIsRead(SmallForm("", "filename=", name, content));
  }

  /** A file of one NUL byte is stored with the closing delimiter behind it. */
  lemma NulIsStoredLonger()
    ensures var f := SmallForm("", "f", "a", [NUL]);
            var (t, r) := (FormBody(f), ReadForm(FormBody(f), "+"));
            && !Recovers(t, r, "a", [NUL]) && Stores(t, r, "a", [NUL] + "\r\n--+--")
  {
    hide FormBody, ReadForm, Ahead, Encodable;
    SmallIsEncodable("", "f", "a", [NUL]);
    SmallIsText("", "f", "a", [NUL]);
    assert forall m: nat :: !OccursAt("", m, FILENAME);
    UploadStored(SmallForm("", "f", "a", [NUL]));
    UploadIff(SmallForm("", "f", "a", [NUL]));
  }

  /** A part ahead of the file part that holds the key behind a boundary gives the file its name. */
  lemma KeyInEarlierPart(name: seq<char>, content: seq<char>)
    requires '"' !in name && NUL !in name
    ensures var f := SmallForm("+" + FILENAME + "x\"", "f", name, content);
            var (t, r) := (FormBody(f), ReadForm(FormBody(f), "+"));
            r.Some? && t[r.value.nameFrom..r.value.nameTo] == "x"
  {
    hide StrStr, ReadForm, PartHeaders, FormHead;
    var before := "+" + FILENAME + "x\"";
    var f := SmallForm(before, "f", name, content);
    var t := FormBody(f);
    SmallIsText(before, "f", name, content);
    BlankInBody(f);
    HeadLength(f);
    assert t[..13] == before;
    assert t[..|Ahead(f)|] == Ahead(f);
    EarlierFinds(t);
    hide Ahead, Behind, FormBody, OccursAt;
    NameRange(t, "+", 0, 1, 12, |Ahead(f)|);
  }

  lemma EarlierFinds(t: seq<char>)
    requires 13 <= |t| && t[..13] == "+" + FILENAME + "x\""
    ensures StrStr(t, 0, "+") == At(0) && StrStr(t, 0, FILENAME) == At(1) && Find(t, 11, {'"'}) == 12
    ensures t[11..12] == "x"
  {
    var before := "+" + FILENAME + "x\"";
    assert forall k :: 0 <= k < 13 ==> t[k] == before[k];
    assert t[0..1] == "+" && t[1..11] == FILENAME;
    Differs(t, 0, FILENAME, 0);
    StrStrIs(t, 0, "+", 0);
    StrStrIs(t, 0, FILENAME, 1);
    FindIs(t, 11, {'"'}, 12);
  }

  // ---- from the wire ----

  /** The C string at `i`, which may lie behind the filled part, where the buffer holds NULs. */
  function StringBehind(d: seq<char>, i: nat): seq<char> {
    if i <= |d| then CStr(d, i) else []
  }

  /** The upload branch of do_request on the fields that process_read left. */
  function UploadOf(t: Conn): (r: Option<Upload>)
    requires t.checked <= |t.data|
    ensures r.Some? ==> r.value.nameFrom <= r.value.nameTo
  {
    if t.boundary.Null? then None
    else FindUpload(CStr(t.data, t.checked), |t.data| - t.checked, StringBehind(t.data, t.boundary.i))
  }

  /** The text stands at `m`, and nowhere from `from` up to there. */
  ghost predicate FirstAt(t: seq<char>, from: nat, m: nat, pat: seq<char>) {
    from <= m && OccursAt(t, m, pat) && forall k :: from <= k < m ==> !OccursAt(t, k, pat)
  }

  /** The text stands nowhere from `from` on. */
  ghost predicate Absent(t: seq<char>, from: nat, pat: seq<char>) {
    forall m :: from <= m ==> !OccursAt(t, m, pat)
  }

  lemma SearchMeans(t: seq<char>, from: nat, pat: seq<char>)
    requires from <= |t|
    ensures StrStr(t, from, pat).Null? <==> Absent(t, from, pat)
    ensures forall m: nat :: FirstAt(t, from, m, pat) <==> StrStr(t, from, pat) == At(m)
  {
    hide OccursAt;
  }

  lemma QuoteMeans(t: seq<char>, from: nat)
    requires from <= |t|
    ensures Find(t, from, {'"'}) == |t| <==> Absent(t, from, "\"")
    ensures forall m: nat :: FirstAt(t, from, m, "\"") <==> (Find(t, from, {'"'}) == m && m < |t|)
  {
    forall m: nat | from <= m
      ensures OccursAt(t, m, "\"") <==> m < |t| && t[m] == '"'
    {
      assert m < |t| ==> t[m..m + 1][0] == t[m];
      assert m < |t| && t[m] == '"' ==> t[m..m + 1] == "\"";
    }
    hide OccursAt;
  }

  /** Where the boundary, the key, the quote behind the file name and the blank line stand. */
  datatype Marks = Marks(part: nat, key: nat, quote: nat, blank: nat)

  /** Something is missing: the key from the first boundary on, or a quote behind the first key from there, or a
      blank line behind that quote. */
  ghost predicate MissesSome(t: seq<char>, b: seq<char>, m: Marks) {
    && FirstAt(t, 0, m.part, b)
    && (|| Absent(t, m.part, "filename=\"")
        || (&& FirstAt(t, m.part, m.key, "filename=\"")
            && (|| Absent(t, m.key + 10, "\"")
                || (FirstAt(t, m.key + 10, m.quote, "\"") && Absent(t, m.quote, "\r\n\r\n")))))
  }

  ghost predicate HasAll(t: seq<char>, b: seq<char>, m: Marks) {
    && FirstAt(t, 0, m.part, b) && FirstAt(t, m.part, m.key, "filename=\"") && FirstAt(t, m.key + 10, m.quote, "\"")
    && FirstAt(t, m.quote, m.blank, "\r\n\r\n")
  }

  /** The content from `from` ends two bytes ahead of the next boundary, or at `n`. */
  ghost predicate EndsAt(t: seq<char>, b: seq<char>, from: nat, n: nat, to: int) {
    (Absent(t, from, b) && to == n) || exists next: nat :: FirstAt(t, from, next, b) && to == next - 2
  }

  ghost predicate FoundAt(t: seq<char>, n: nat, b: seq<char>, m: Marks, r: Upload) {
    && HasAll(t, b, m) && r.nameFrom == m.key + 10 && r.nameTo == m.quote && r.from == m.blank + 4
    && EndsAt(t, b, r.from, n, r.to)
  }

  /** An upload is refused exactly when there is no boundary in the text or one of the others is missing behind it;
      otherwise the name stands between the key and the quote, and the content behind the blank line. */
  lemma RefusedIff(t: seq<char>, n: nat, b: seq<char>)
    ensures FindUpload(t, n, b).None? <==> Absent(t, 0, b) || exists m: Marks :: MissesSome(t, b, m)
    ensures FindUpload(t, n, b).Some? ==> exists m: Marks :: FoundAt(t, n, b, m, FindUpload(t, n, b).value)
  {
    hide OccursAt, StrStr, Find, FirstAt, Absent;
    SearchMeans(t, 0, b);
    var part := StrStr(t, 0, b);
    if part.At? {
      Ends(t, part.i, b);
      SearchMeans(t, part.i, FILENAME);
      var key := StrStr(t, part.i, FILENAME);
      if key.Null? {
        assert MissesSome(t, b, Marks(part.i, 0, 0, 0));
      } else {
        Ends(t, key.i, FILENAME);
        BehindKey(t, n, b, part.i, key.i);
      }
    }
  }

  /** The part of it behind the key. */
  lemma BehindKey(t: seq<char>, n: nat, b: seq<char>, part: nat, key: nat)
    requires StrStr(t, 0, b) == At(part) && FirstAt(t, 0, part, b) && part <= |t|
    requires StrStr(t, part, FILENAME) == At(key) && FirstAt(t, part, key, FILENAME) && key + 10 <= |t|
    ensures FindUpload(t, n, b).None? <==> exists m: Marks :: MissesSome(t, b, m)
    ensures FindUpload(t, n, b).Some? ==> exists m: Marks :: FoundAt(t, n, b, m, FindUpload(t, n, b).value)
  {
    hide OccursAt, StrStr, Find;
    var quote := Find(t, key + 10, {'"'});
    SearchMeans(t, 0, b);
    SearchMeans(t, part, FILENAME);
    QuoteMeans(t, key + 10);
    hide FirstAt, Absent;
    if quote == |t| {
      assert MissesSome(t, b, Marks(part, key, 0, 0));
    } else {
      SearchMeans(t, quote, BLANKLINE);
      var blank := StrStr(t, quote, BLANKLINE);
      if blank.Null? {
        assert MissesSome(t, b, Marks(part, key, quote, 0));
      } else {
        Ends(t, blank.i, BLANKLINE);
        SearchMeans(t, blank.i + 4, b);
        assert HasAll(t, b, Marks(part, key, quote, blank.i));
        var next := StrStr(t, blank.i + 4, b);
        assert EndsAt(t, b, blank.i + 4, n, if next.Null? then n else next.i - 2);
        assert FoundAt(t, n, b, Marks(part, key, quote, blank.i), FindUpload(t, n, b).value);
      }
    }
  }

  /** The same for the fields that process_read left: without a boundary field, too, the upload is refused. */
  lemma UploadRefusedIff(t: Conn, text: seq<char>, n: nat, b: seq<char>)
    requires t.checked <= |t.data| && text == CStr(t.data, t.checked) && n == |t.data| - t.checked
    requires t.boundary.At? ==> b == StringBehind(t.data, t.boundary.i)
    ensures UploadOf(t).None? <==>
              t.boundary.Null? || Absent(text, 0, b) || exists m: Marks :: MissesSome(text, b, m)
    ensures UploadOf(t).Some? ==> exists m: Marks :: FoundAt(text, n, b, m, UploadOf(t).value)
  {
    hide FindUpload, CStr, Absent, MissesSome, FoundAt;
    RefusedIff(text, n, b);
  }

  lemma Ends(t: seq<char>, m: nat, pat: seq<char>)
    requires OccursAt(t, m, pat)
    ensures m + |pat| <= |t|
  {
  }

  /** A form posted to /file with its length and boundary. */
  function UploadMessage(b: seq<char>, body: seq<char>): seq<char> {
    Message(RequestText("POST", "/file"), [LENGTH + " " + Itoa(|body|), MULTIPART + b], body)
  }

  /** The server has taken the posted bytes as a complete POST /file with this body, whatever bytes it holds, and
      hands the upload branch exactly it and its boundary. */
  lemma UploadArrives(b: seq<char>, body: seq<char>)
    requires Plain(b) && body != []
    ensures var (t, code) := Process(Arrive(FRESH, UploadMessage(b, body)));
            && code == GetRequest && t.verb == POST && t.checked <= |t.data| && t.data[t.checked..] == body
            && t.url.At? && t.url.i <= |t.data| && CStr(t.data, t.url.i) == "/file"
            && UploadOf(t) == ReadForm(body, b)
  {
    hide Message, RequestText, Process, Classify, CStr, RequestOf, FindUpload, Placed, Print, Fold, Itoa, Atoi, PutNul,
         Plain;
    var request := RequestText("POST", "/file");
    var headers := [LENGTH + " " + Itoa(|body|), MULTIPART + b];
    NumberPrinted(|body|);
    LengthPrinted(Itoa(|body|));
    LengthPlain(Itoa(|body|));
    MultipartPrinted(b);
    MultipartPlain(b);
    FileRequest();
    ReadsMessage(request, headers, body);
    FoldTwo(|request| + 2, headers[0], headers[1]);
    var t := Process(Arrive(FRESH, UploadMessage(b, body))).0;
    BodySlice(t.data[t.checked..], body);
    StringInRest(t.data, t.checked);
  }

  lemma StringInRest(d: seq<char>, i: nat)
    requires i <= |d|
    ensures CStr(d, i) == CStr(d[i..], 0)
  {
    FindFrom(d, i, {NUL});
    var k := Find(d[i..], 0, {NUL});
    assert d[i..i + k] == d[i..][0..k];
  }

  /** From the bytes on the wire to the stored file, for any file: name and content are read where they stand under
      exactly the condition of InPlaceIff, recovered under exactly that of UploadIff, and a content with a NUL is
      stored with everything behind it. */
  lemma UploadEndToEnd(f: Form)
    requires Encodable(f) && Plain(f.boundary)
    ensures var (t, code) := Process(Arrive(FRESH, UploadMessage(f.boundary, FormBody(f))));
            && code == GetRequest && t.verb == POST && t.checked <= |t.data| && t.data[t.checked..] == FormBody(f)
            && t.url.At? && t.url.i <= |t.data| && CStr(t.data, t.url.i) == "/file"
            && (InPlace(f, UploadOf(t))
                <==> KeyIsFirst(f) && !EndsInKey(f.field) && NUL !in Ahead(f) && NUL !in f.content)
            && (KeyIsFirst(f) && NUL !in Ahead(f) ==>
                  && (Recovers(t.data[t.checked..], UploadOf(t), f.name, f.content)
                      <==> NUL !in f.content && (EndsInKey(f.field) ==> f.name == "; filename="))
                  && (NUL in f.content && (EndsInKey(f.field) ==> f.name == "; filename=") ==>
                        Stores(t.data[t.checked..], UploadOf(t), f.name, Behind(f))))
  {
    hide Process, CStr, UploadOf, UploadMessage, FormBody, Ahead, Behind, Encodable, KeyIsFirst, EndsInKey, InPlace,
         Recovers, Stores, Plain, ReadForm;
    BodyNotEmpty(f);
    UploadArrives(f.boundary, FormBody(f));
    InPlaceIff(f);
    if KeyIsFirst(f) && NUL !in Ahead(f) {
      UploadIff(f);
      if EndsInKey(f.field) ==> f.name == "; filename=" {
        UploadStored(f);
      }
    }
  }

  lemma BodyNotEmpty(f: Form)
    ensures FormBody(f) != []
  {
    hide Ahead;
  }

  lemma FileRequest()
    ensures var request := RequestText("POST", "/file");
            RequestOf(request) == Some(Request(POST, "/file")) && Plain(request)
  {
    hide RequestOf, RequestText;
    RequestTextIs(POST, "/file");
  }

  lemma LengthPlain(v: seq<char>)
    requires Plain(v)
    ensures Plain(LENGTH + " " + v)
  {
    PlainConcat(LENGTH, " ");
    PlainConcat(LENGTH + " ", v);
  }

  lemma BodySlice(d: seq<char>, body: seq<char>)
    requires d == PutNul(body, |body|)
    ensures d == body
  {
  }

  lemma FoldTwo(at: nat, l: seq<char>, m: seq<char>)
    requires Classify(l).Length? && Classify(m).Multipart?
    ensures Fold(NO_FIELDS, Placed(at, [l, m])) ==
            Fields(Atoi(Classify(l).value), false, None, Some(MarkOf(Line(at + |l| + 2, m, at + |l| + 2 + |m| + 2))))
  {
    hide Classify, Atoi;
    var (a, b) := (Line(at, l, at + |l| + 2), Line(at + |l| + 2, m, at + |l| + 2 + |m| + 2));
    assert [l, m][1..] == [m] && [m][1..] == [];
    assert Placed(b.at, [m]) == [b];
    assert Placed(at, [l, m]) == [a, b];
    assert [a, b][1..] == [b] && [b][1..] == [];
    var f := WithField(NO_FIELDS, a);
    assert Fold(WithField(f, b), []) == WithField(f, b);
    assert Fold(f, [b]) == WithField(f, b);
  }

  /** The body that parse_content terminated, as a C string. */
  lemma BodyText(d: seq<char>, i: nat, body: seq<char>)
    requires i <= |d| && NUL !in body && d[i..] == PutNul(body, |body|)
    ensures CStr(d, i) == body
  {
    assert d[i..i + |body|] == d[i..][..|body|] == body;
    CStrIs(d, i, body);
  }

  // ---- login and registration ----

  /** The loop that copies the user name out of the body at `from` into name[100]. */
  method CopyName(buf: array<char>, from: nat, name: array<char>) returns (i: nat)
    requires from + 5 <= buf.Length && name.Length == 100 && name != buf
    requires var k := Find(buf[..], from + 5, {'&'}); k < buf.Length && k - (from + 5) < 100
    requires forall j :: 0 <= j < 100 ==> name[j] == NUL
    modifies name
    ensures i == Find(buf[..], from + 5, {'&'})
    ensures name[..i - (from + 5)] == buf[from + 5..i]
    ensures forall j :: i - (from + 5) <= j < 100 ==> name[j] == NUL
  {
    i := from + 5;
    ghost var k := Find(buf[..], from + 5, {'&'});
    while buf[i] != '&'
      invariant from + 5 <= i <= k
      invariant name[..i - (from + 5)] == buf[from + 5..i]
      invariant forall j :: i - (from + 5) <= j < 100 ==> name[j] == NUL
      decreases k - i
    {
      assert buf[..][i] == buf[i];
      name[i - (from + 5)] := buf[i];
      i := i + 1;
    }
    assert buf[..][i] == buf[i];
  }

  /** Login round trip: the two values of a posted form are read back, wherever the body stands. */
  lemma LoginRoundTrip(d: seq<char>, from: nat, user: seq<char>, password: seq<char>)
    requires '&' !in user && from <= |d| && CStr(d, from) == "user=" + user + "&" + "password=" + password
    ensures from + 5 <= |d|
    ensures var k := Find(d, from + 5, {'&'});
            d[from + 5..k] == user && k + 10 <= |d| && CStr(d, k + 10) == password
  {
    hide CStr;
    var body := "user=" + user + "&" + "password=" + password;
    TextIs(d, from);
    CStrEnds(d, from);
    assert forall m :: from <= m < from + |body| ==> d[m] == body[m - from] by {
      assert forall m :: from <= m < from + |body| ==> d[m] == d[from..from + |body|][m - from];
    }
    var k := from + 5 + |user|;
    forall m | from + 5 <= m < k
      ensures d[m] !in {'&'}
    {
      assert d[m] == body[m - from] == user[m - from - 5];
    }
    FindIs(d, from + 5, {'&'}, k);
    assert d[from + 5..k] == user;
    assert d[k + 10..k + 10 + |password|] == password;
    assert NUL !in password by {
      assert forall m :: 0 <= m < |password| ==> password[m] == body[15 + |user| + m];
    }
    CStrIs(d, k + 10, password);
  }

  function LoginBody(user: seq<char>, password: seq<char>): seq<char> {
    "user=" + user + "&" + "password=" + password
  }

  function LoginMessage(path: seq<char>, body: seq<char>): seq<char> {
    Message(RequestText("POST", path), [LENGTH + " " + Itoa(|body|)], body)
  }

  /** The fields say POST for `path`. */
  ghost predicate IsPostFor(t: Conn, path: seq<char>) {
    t.verb == POST && t.url.At? && t.url.i <= |t.data| && CStr(t.data, t.url.i) == path
  }

  /** The login branch reads these two values out of the body, and the first one fits into name[100] as a string. */
  ghost predicate ReadsLogin(t: Conn, user: seq<char>, password: seq<char>) {
    && t.checked + 5 <= |t.data|
    && var k := Find(t.data, t.checked + 5, {'&'});
       && t.data[t.checked + 5..k] == user && k - (t.checked + 5) < 100
       && k + 10 <= |t.data| && CStr(t.data, k + 10) == password
  }

  /** From the bytes on the wire: a form posted to /login or /register is complete, and both values are read back
      exactly if and only if the user name is shorter than the array it is copied to. */
  lemma LoginEndToEnd(path: seq<char>, user: seq<char>, password: seq<char>)
    requires path in LOGIN_PATHS && '&' !in user && NUL !in user && NUL !in password
    ensures var (t, code) := Process(Arrive(FRESH, LoginMessage(path, LoginBody(user, password))));
            code == GetRequest && IsPostFor(t, path) && (ReadsLogin(t, user, password) <==> |user| < 100)
  {
    hide Message, RequestText, Process, Classify, CStr, RequestOf, Placed, Print, Fold, Itoa, Atoi, PutNul, Plain, Find,
         LoginBody;
    var body := LoginBody(user, password);
    var header := LENGTH + " " + Itoa(|body|);
    BodyOfLogin(user, password);
    NumberPrinted(|body|);
    LengthPrinted(Itoa(|body|));
    LengthPlain(Itoa(|body|));
    LoginRequest(path);
    ReadsMessage(RequestText("POST", path), [header], body);
    FoldOne(|RequestText("POST", path)| + 2, header);
    var t := Process(Arrive(FRESH, LoginMessage(path, body))).0;
    BodyText(t.data, t.checked, body);
    LoginRoundTrip(t.data, t.checked, user, password);
  }

  lemma BodyOfLogin(user: seq<char>, password: seq<char>)
    requires NUL !in user && NUL !in password
    ensures NUL !in LoginBody(user, password) && |LoginBody(user, password)| > 0
    ensures LoginBody(user, password) == "user=" + user + "&" + "password=" + password
  {
    assert NUL !in "user=" && NUL !in "&" && NUL !in "password=";
  }

  lemma LoginRequest(path: seq<char>)
    requires path in LOGIN_PATHS
    ensures var request := RequestText("POST", path);
            RequestOf(request) == Some(Request(POST, path)) && Plain(request)
  {
    hide RequestOf, RequestText;
    RequestTextIs(POST, path);
  }

  lemma FoldOne(at: nat, l: seq<char>)
    requires Classify(l).Length?
    ensures Fold(NO_FIELDS, Placed(at, [l])) == Fields(Atoi(Classify(l).value), false, None, None)
  {
    hide Classify, Atoi;
    var a := Line(at, l, at + |l| + 2);
    assert [l][1..] == [];
    assert Placed(at, [l]) == [a] && [a][1..] == [];
    assert Fold(WithField(NO_FIELDS, a), []) == WithField(NO_FIELDS, a);
    assert Fold(NO_FIELDS, [a]) == Fold(WithField(NO_FIELDS, a), []);
  }

  lemma CStrEnds(d: seq<char>, i: nat)
    requires i <= |d|
    ensures var t := CStr(d, i); NUL !in t && i + |t| <= |d| && (i + |t| < |d| ==> d[i + |t|] == NUL)
  {
  }

  // ---- the answer page replaces the path in place ----

  /** strcpy(m_url, page). */
  function StrCpy(d: seq<char>, i: nat, page: seq<char>): (r: seq<char>)
    requires i + |page| < |d|
    ensures |r| == |d|
  {
    d[..i] + page + [NUL] + d[i + |page| + 1..]
  }

  const LOGIN_PATHS := {"/login", "/register"}
  const RESULT_PAGES := {"/1.html", "/logerror.html", "/index.html", "/regerror.html"}

  /** After an accepted request for /login or /register, any result page fits into the bytes of the
      request line itself, so the strings of the headers and the body are the same as before. */
  lemma RewriteConfined(msg: seq<char>, page: seq<char>)
    requires Lines(msg, 0) != [] && RequestOf(Lines(msg, 0)[0].text).Some?
    requires RequestOf(Lines(msg, 0)[0].text).value.target in LOGIN_PATHS && page in RESULT_PAGES
    ensures var (t, lines) := (Process(Arrive(FRESH, msg)).0, Lines(msg, 0));
            && t.url.At? && t.url.i + |page| < lines[0].next <= |t.data|
            && (var d := StrCpy(t.data, t.url.i, page);
                && CStr(d, t.url.i) == page && |d| == |t.data|
                && d[..t.url.i] == t.data[..t.url.i] && d[lines[0].next..] == t.data[lines[0].next..]
                && (t.host.At? ==> lines[0].next <= t.host.i <= |d| && CStr(d, t.host.i) == CStr(t.data, t.host.i))
                && (t.boundary.At? ==> lines[0].next <= t.boundary.i))
  {
    hide Process, Lines, RequestOf, CStr, StrCpy, Fold;
    ParserRefines(msg);
    var (t, lines) := (Process(Arrive(FRESH, msg)).0, Lines(msg, 0));
    var (next, u) := (lines[0].next, t.url.i);
    PageFits(RequestOf(lines[0].text).value.target, page);
    PageWritten(t.data, u, page, next);
    var rest := lines[1..];
    LinesFollow(msg);
    LinesBehind(msg, next);
    FieldsBehind(NO_FIELDS, rest[..FirstBlank(rest)], next, |msg|);
    if t.host.At? {
      SameTail(t.data, StrCpy(t.data, u, page), next, t.host.i);
    }
  }

  lemma PageFits(path: seq<char>, page: seq<char>)
    requires path in LOGIN_PATHS && page in RESULT_PAGES
    ensures |page| < |path| + 11 && NUL !in page
  {
  }

  lemma LinesFollow(msg: seq<char>)
    requires Lines(msg, 0) != []
    ensures Lines(msg, 0)[1..] == Lines(msg, Lines(msg, 0)[0].next)
  {
    hide CStr;
  }

  lemma PageWritten(d: seq<char>, i: nat, page: seq<char>, next: nat)
    requires i + |page| < next <= |d| && NUL !in page
    ensures var r := StrCpy(d, i, page);
            CStr(r, i) == page && |r| == |d| && r[..i] == d[..i] && r[next..] == d[next..]
  {
    var r := StrCpy(d, i, page);
    assert r[i..i + |page|] == page;
    CStrIs(r, i, page);
  }

  lemma SameTail(d: seq<char>, e: seq<char>, next: nat, i: nat)
    requires next <= i <= |d| == |e| && d[next..] == e[next..]
    ensures CStr(d, i) == CStr(e, i)
  {
    assert d[i..] == d[next..][i - next..] == e[next..][i - next..] == e[i..];
    FindInTail(d, e, i, {NUL});
    assert d[i..Find(d, i, {NUL})] == d[i..][..Find(d, i, {NUL}) - i];
    assert e[i..Find(e, i, {NUL})] == e[i..][..Find(e, i, {NUL}) - i];
  }
}
