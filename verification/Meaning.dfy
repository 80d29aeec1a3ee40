/**
 What the byte tests of the request parser mean, said on the bytes alone: letters in either case, blanks, decimal
 numbers, header names and values, the parts of a request line.  And what a client may therefore rely on: how the
 fields of any message with plain lines are read, whatever the case of its header names and its spacing.
 */
module Meaning {
  import opened CString
  import opened HttpParse
  import opened Reference
  import opened Printer

  // ---- letters ----

  /** The same byte, or the same letter of the alphabet in the other case. */
  predicate SameLetter(a: char, b: char) {
    || a == b
    || ('a' <= a <= 'z' && b as int == a as int - 'a' as int + 'A' as int)
    || ('A' <= a <= 'Z' && b as int == a as int - 'A' as int + 'a' as int)
  }

  predicate Spells(t: seq<char>, name: seq<char>) {
    |t| == |name| && forall i :: 0 <= i < |t| ==> SameLetter(t[i], name[i])
  }

  lemma LettersAgree(a: char, b: char)
    ensures SameLetter(a, b) <==> Lower(a) == Lower(b)
  {
  }

  /** strcasecmp compares letter by letter, whatever their case. */
  lemma EqNoCaseMeans(a: seq<char>, b: seq<char>)
    ensures EqNoCase(a, b) <==> Spells(a, b)
  {
    EqNoCaseAt(a, b);
    if |a| == |b| {
      forall i | 0 <= i < |a|
        ensures SameLetter(a[i], b[i]) <==> Lower(a[i]) == Lower(b[i])
      {
        LettersAgree(a[i], b[i]);
      }
    }
  }

  /** The line begins with the name, in any case. */
  predicate HasName(t: seq<char>, name: seq<char>) {
    |name| <= |t| && Spells(t[..|name|], name)
  }

  lemma StartsMeans(t: seq<char>, name: seq<char>)
    ensures StartsNoCase(t, name) <==> HasName(t, name)
  {
    if |name| <= |t| {
      EqNoCaseMeans(t[..|name|], name);
    }
  }

  lemma NameAt(t: seq<char>, name: seq<char>, i: nat)
    requires HasName(t, name) && i < |name|
    ensures SameLetter(t[i], name[i])
  {
    assert t[..|name|][i] == t[i];
  }

  // ---- header lines ----

  /** `v` is what follows the blanks and tabs that `rest` begins with. */
  ghost predicate IsValue(rest: seq<char>, v: seq<char>) {
    exists k: nat :: k <= |rest| && BlankBelow(rest, k) && rest[k..] == v && (v == [] || (v[0] != ' ' && v[0] != '\t'))
  }

  predicate BlankBelow(t: seq<char>, k: nat)
    requires k <= |t|
  {
    forall i :: 0 <= i < k ==> t[i] == ' ' || t[i] == '\t'
  }

  lemma ValueIs(rest: seq<char>, v: seq<char>)
    ensures IsValue(rest, v) <==> v == SkipBlank(rest)
  {
    var s := Span(rest, 0, BLANK);
    if IsValue(rest, v) {
      var k: nat :| k <= |rest| && BlankBelow(rest, k) && rest[k..] == v && (v == [] || (v[0] != ' ' && v[0] != '\t'));
      assert k < |rest| ==> rest[k] == v[0];
      assert k == s;
    }
    if v == SkipBlank(rest) {
      assert BlankBelow(rest, s) && rest[s..] == v;
    }
  }

  const CONNECTION_NAME := "Connection:"
  const LENGTH_NAME := "Content-Length:"
  const HOST_NAME := "Host:"
  const FORM_NAME := "Content-Type: multipart/form-data;"

  /** No line begins with two of the names. */
  lemma NamesExclude(t: seq<char>)
    ensures HasName(t, CONNECTION_NAME) ==> !HasName(t, LENGTH_NAME) && !HasName(t, HOST_NAME) && !HasName(t, FORM_NAME)
    ensures HasName(t, LENGTH_NAME) ==> !HasName(t, HOST_NAME) && !HasName(t, FORM_NAME)
    ensures HasName(t, HOST_NAME) ==> !HasName(t, FORM_NAME)
  {
    hide Spells;
    if HasName(t, CONNECTION_NAME) {
      NameAt(t, CONNECTION_NAME, 0);
      NameAt(t, CONNECTION_NAME, 3);
    }
    if HasName(t, LENGTH_NAME) {
      NameAt(t, LENGTH_NAME, 0);
      NameAt(t, LENGTH_NAME, 3);
      NameAt(t, LENGTH_NAME, 8);
    }
    if HasName(t, HOST_NAME) {
      NameAt(t, HOST_NAME, 0);
    }
    if HasName(t, FORM_NAME) {
      NameAt(t, FORM_NAME, 0);
      NameAt(t, FORM_NAME, 3);
      NameAt(t, FORM_NAME, 8);
    }
  }

  lemma FormTypeIs()
    ensures FORM_TYPE == FORM_NAME
  {
  }

  /** Which lines parse_headers recognises, and the value it reads: each of its four names in any case, any run of
      blanks and tabs, and every other line is passed over. */
  lemma ClassifyMeans(t: seq<char>, v: seq<char>)
    ensures Classify(t) == Blank <==> t == []
    ensures Classify(t) == Linger(v) <==> HasName(t, CONNECTION_NAME) && IsValue(t[11..], v)
    ensures Classify(t) == Length(v) <==> HasName(t, LENGTH_NAME) && IsValue(t[15..], v)
    ensures Classify(t) == HostName(v) <==> HasName(t, HOST_NAME) && IsValue(t[5..], v)
    ensures Classify(t) == Multipart <==> HasName(t, FORM_NAME)
    ensures Classify(t) == Other
       <==> t != [] && !HasName(t, CONNECTION_NAME) && !HasName(t, LENGTH_NAME) && !HasName(t, HOST_NAME)
            && !HasName(t, FORM_NAME)
    ensures HasName(t, CONNECTION_NAME) <==> Classify(t).Linger?
    ensures HasName(t, LENGTH_NAME) <==> Classify(t).Length?
    ensures HasName(t, HOST_NAME) <==> Classify(t).HostName?
  {
    FormTypeIs();
    NamesExclude(t);
    StartsMeans(t, CONNECTION_NAME);
    StartsMeans(t, LENGTH_NAME);
    StartsMeans(t, HOST_NAME);
    StartsMeans(t, FORM_NAME);
    if |t| >= 11 { ValueIs(t[11..], v); }
    if |t| >= 15 { ValueIs(t[15..], v); }
    if |t| >= 5 { ValueIs(t[5..], v); }
    hide StartsNoCase, HasName, IsValue, SkipBlank, FORM_NAME;
  }

  // ---- numbers ----

  predicate Digit(c: char) { '0' <= c <= '9' }

  predicate AllDigits(s: seq<char>) {
    forall i :: 0 <= i < |s| ==> Digit(s[i])
  }

  /** The number that a decimal numeral stands for. */
  function Decimal(s: seq<char>): nat
    requires AllDigits(s)
  {
    if s == [] then 0 else 10 * Decimal(s[..|s| - 1]) + (s[|s| - 1] as int - '0' as int)
  }

  lemma {:induction false} DigitsMean(s: seq<char>, rest: seq<char>)
    requires AllDigits(s) && (rest == [] || !Digit(rest[0]))
    ensures Digits(s + rest, 0) == Decimal(s)
  {
    DigitsOfConcat(s, rest, 0);
    DigitsAreDecimal(s);
  }

  lemma {:induction false} DigitsAreDecimal(s: seq<char>)
    requires AllDigits(s)
    ensures Digits(s, 0) == Decimal(s)
  {
    if s != [] {
      var (front, last) := (s[..|s| - 1], s[|s| - 1]);
      assert s == front + [last];
      DigitsAreDecimal(front);
      DigitsOfConcat(front, [last], 0);
      assert [last][1..] == [];
    }
  }

  predicate WhiteSpace(c: char) {
    c == ' ' || c == '\t' || c == '\n' || c == '\U{000B}' || c == '\U{000C}' || c == '\r'
  }

  /** atoi: white space, then the number that the digits up to the first other byte stand for. */
  lemma AtoiMeans(space: seq<char>, digits: seq<char>, rest: seq<char>)
    requires (forall i :: 0 <= i < |space| ==> WhiteSpace(space[i])) && AllDigits(digits)
    requires rest == [] || !Digit(rest[0])
    requires digits == [] && rest != [] ==> !WhiteSpace(rest[0]) && rest[0] != '+' && rest[0] != '-'
    ensures Atoi(space + digits + rest) == Decimal(digits)
  {
    var w := digits + rest;
    DigitsMean(digits, rest);
    hide Atoi, Digits, Decimal;
    AtoiBehind(space, w);
    assert space + digits + rest == space + w;
  }

  /** The same behind a sign. */
  lemma AtoiSigned(space: seq<char>, sign: char, digits: seq<char>, rest: seq<char>)
    requires (forall i :: 0 <= i < |space| ==> WhiteSpace(space[i])) && AllDigits(digits)
    requires (sign == '+' || sign == '-') && (rest == [] || !Digit(rest[0]))
    ensures sign == '+' ==> Atoi(space + [sign] + digits + rest) == Decimal(digits)
    ensures sign == '-' ==> Atoi(space + [sign] + digits + rest) == 0 - Decimal(digits)
  {
    var u := [sign] + (digits + rest);
    DigitsMean(digits, rest);
    hide Atoi, Digits, Decimal;
    AtoiBehind(space, u);
    assert u[1..] == digits + rest;
    assert space + [sign] + digits + rest == space + u;
  }

  lemma AtoiBehind(space: seq<char>, u: seq<char>)
    requires forall i :: 0 <= i < |space| ==> WhiteSpace(space[i])
    requires u == [] || !WhiteSpace(u[0])
    ensures u != [] && u[0] == '-' ==> Atoi(space + u) == 0 - Digits(u[1..], 0)
    ensures u != [] && u[0] == '+' ==> Atoi(space + u) == Digits(u[1..], 0)
    ensures u == [] || (u[0] != '-' && u[0] != '+') ==> Atoi(space + u) == Digits(u, 0)
  {
    hide Digits, Span;
    SpanIs(space, u);
    assert (space + u)[|space|..] == u;
  }

  lemma SpanIs(space: seq<char>, u: seq<char>)
    requires forall i :: 0 <= i < |space| ==> WhiteSpace(space[i])
    requires u == [] || !WhiteSpace(u[0])
    ensures Span(space + u, 0, SPACE) == |space|
  {
    var t := space + u;
    assert forall i :: 0 <= i < |space| ==> t[i] == space[i] && t[i] in SPACE;
    assert u != [] ==> t[|space|] == u[0] && u[0] !in SPACE;
  }

  /** "%d" prints the decimal numeral of the number, without leading zeros. */
  lemma {:induction false} ItoaMeans(n: nat)
    ensures AllDigits(Itoa(n)) && Decimal(Itoa(n)) == n && (n > 0 ==> Itoa(n)[0] != '0') && (n == 0 ==> Itoa(n) == "0")
  {
    if n >= 10 {
      ItoaMeans(n / 10);
      var s := Itoa(n);
      assert s[..|s| - 1] == Itoa(n / 10);
    }
  }

  // ---- request lines ----

  /** `p` is the path of the target: the target itself, or what follows "http://" and a host. */
  ghost predicate IsPath(target: seq<char>, p: seq<char>) {
    && p != [] && p[0] == '/'
    && (|| target == p
        || (HasName(target, "http://") && exists k :: 7 <= k <= |target| && '/' !in target[7..k] && target[k..] == p))
  }

  lemma PathMeans(target: seq<char>, p: seq<char>)
    ensures PathOf(target) == Some(p) <==> IsPath(target, p)
  {
    StartsMeans(target, "http://");
    if HasName(target, "http://") {
      NameAt(target, "http://", 0);
      var k := Find(target, 7, {'/'});
      assert forall m :: 7 <= m < k ==> target[m] != '/';
      assert '/' !in target[7..k];
      assert target != p || p[0] != '/';
      if IsPath(target, p) {
        var j :| 7 <= j <= |target| && '/' !in target[7..j] && target[j..] == p;
        assert target[j] == '/';
        assert forall m :: 7 <= m < j ==> target[m] == target[7..j][m - 7];
        FindIs(target, 7, {'/'}, j);
      }
    }
  }

  predicate NoBlank(t: seq<char>) {
    ' ' !in t && '\t' !in t
  }

  /** A line of three parts between single blanks or tabs is a request exactly when they read GET or POST, a target
      with a path, and HTTP/1.1, method and version in any case. */
  lemma RequestMeans(name: seq<char>, b1: char, target: seq<char>, b2: char, version: seq<char>, p: seq<char>)
    requires NoBlank(name) && NoBlank(target) && (b1 == ' ' || b1 == '\t') && (b2 == ' ' || b2 == '\t')
    ensures var r := RequestOf(name + [b1] + target + [b2] + version);
            && (r == Some(Request(GET, p)) <==>
                  Spells(name, "GET") && IsPath(target, p) && Spells(version, "HTTP/1.1"))
            && (r == Some(Request(POST, p)) <==>
                  Spells(name, "POST") && IsPath(target, p) && Spells(version, "HTTP/1.1"))
  {
    hide PathOf, IsPath, EqNoCase, Spells, Find, NoBlank;
    var (rest, line) := (target + [b2] + version, name + [b1] + target + [b2] + version);
    assert line == name + [b1] + rest;
    BlankAt(name, b1, rest);
    BlankAt(target, b2, version);
    assert line[..|name|] == name && line[|name| + 1..] == rest;
    assert rest[..|target|] == target && rest[|target| + 1..] == version;
    EqNoCaseMeans(name, "GET");
    EqNoCaseMeans(name, "POST");
    EqNoCaseMeans(version, "HTTP/1.1");
    OneMethod(name);
    PathMeans(target, p);
  }

  lemma OneMethod(name: seq<char>)
    ensures !(Spells(name, "GET") && Spells(name, "POST"))
  {
  }

  lemma BlankAt(s: seq<char>, b: char, rest: seq<char>)
    requires NoBlank(s) && (b == ' ' || b == '\t')
    ensures Find(s + [b] + rest, 0, BLANK) == |s|
  {
    var t := s + [b] + rest;
    assert forall m :: 0 <= m < |s| ==> t[m] == s[m];
    FindIs(t, 0, BLANK, |s|);
  }

  /** A line of one or two parts is no request. */
  lemma ShortLineMeans(name: seq<char>, b: char, target: seq<char>)
    requires NoBlank(name) && NoBlank(target) && (b == ' ' || b == '\t')
    ensures RequestOf(name).None? && RequestOf(name + [b] + target).None?
  {
    hide PathOf, MethodOf, EqNoCase;
    FindIs(name, 0, BLANK, |name|);
    FindIs(target, 0, BLANK, |target|);
    BlankAt(name, b, target);
    assert (name + [b] + target)[|name| + 1..] == target;
  }

  // ---- the fields of a message ----

  ghost predicate PlainMessage(request: seq<char>, headers: seq<seq<char>>) {
    && Plain(request) && RequestOf(request).Some?
    && AllPlain(headers) && forall k :: 0 <= k < |headers| ==> headers[k] != []
  }

  /** The last header line that begins with the name. */
  predicate LastOf(headers: seq<seq<char>>, k: nat, name: seq<char>) {
    k < |headers| && HasName(headers[k], name) && forall m :: k < m < |headers| ==> !HasName(headers[m], name)
  }

  predicate NoneOf(headers: seq<seq<char>>, name: seq<char>) {
    forall m :: 0 <= m < |headers| ==> !HasName(headers[m], name)
  }

  function Sent(request: seq<char>, headers: seq<seq<char>>, body: seq<char>): Conn {
    Process(Arrive(FRESH, Message(request, headers, body))).0
  }

  function FieldLines(request: seq<char>, headers: seq<seq<char>>): seq<Line> {
    Placed(|request| + 2, headers)
  }

  lemma KindOfLine(t: seq<char>)
    ensures HasName(t, CONNECTION_NAME) <==> Classify(t).Linger?
    ensures HasName(t, LENGTH_NAME) <==> Classify(t).Length?
    ensures HasName(t, HOST_NAME) <==> Classify(t).HostName?
    ensures HasName(t, FORM_NAME) <==> Classify(t).Multipart?
  {
    hide Classify, HasName;
    ClassifyMeans(t, []);
  }

  lemma KindsOfLines(headers: seq<seq<char>>)
    ensures forall m :: 0 <= m < |headers| ==>
              && (HasName(headers[m], CONNECTION_NAME) <==> Classify(headers[m]).Linger?)
              && (HasName(headers[m], LENGTH_NAME) <==> Classify(headers[m]).Length?)
              && (HasName(headers[m], HOST_NAME) <==> Classify(headers[m]).HostName?)
              && (HasName(headers[m], FORM_NAME) <==> Classify(headers[m]).Multipart?)
  {
    hide Classify, HasName;
    forall m | 0 <= m < |headers|
      ensures && (HasName(headers[m], CONNECTION_NAME) <==> Classify(headers[m]).Linger?)
              && (HasName(headers[m], LENGTH_NAME) <==> Classify(headers[m]).Length?)
              && (HasName(headers[m], HOST_NAME) <==> Classify(headers[m]).HostName?)
              && (HasName(headers[m], FORM_NAME) <==> Classify(headers[m]).Multipart?)
    {
      KindOfLine(headers[m]);
    }
  }

  /** m_content_length is the number in the last line of that name, or 0. */
  lemma LengthRead(request: seq<char>, headers: seq<seq<char>>, body: seq<char>, k: nat, v: seq<char>)
    requires PlainMessage(request, headers)
    ensures LastOf(headers, k, LENGTH_NAME) && IsValue(headers[k][15..], v) ==>
              Sent(request, headers, body).contentLength == Atoi(v)
    ensures NoneOf(headers, LENGTH_NAME) ==> Sent(request, headers, body).contentLength == 0
  {
    hide Process, Classify, HasName, IsValue, Atoi, Fold, Message, RequestOf, Plain, EqNoCase, CStr, StringAt, Placed;
    ReadsMessage(request, headers, body);
    var lines := FieldLines(request, headers);
    KindsOfLines(headers);
    if LastOf(headers, k, LENGTH_NAME) {
      ClassifyMeans(headers[k], v);
      LastWins(NO_FIELDS, lines, k);
    }
    AbsentKeeps(NO_FIELDS, lines);
  }

  /** m_linger says whether the last line of that name has another value than "close"; without one it is false. */
  lemma LingerRead(request: seq<char>, headers: seq<seq<char>>, body: seq<char>, k: nat, v: seq<char>)
    requires PlainMessage(request, headers)
    ensures LastOf(headers, k, CONNECTION_NAME) && IsValue(headers[k][11..], v) ==>
              (Sent(request, headers, body).linger <==> !Spells(v, "close"))
    ensures NoneOf(headers, CONNECTION_NAME) ==> !Sent(request, headers, body).linger
  {
    hide Process, Classify, HasName, IsValue, Atoi, Fold, Message, RequestOf, Plain, EqNoCase, CStr, StringAt, Placed,
         Spells;
    ReadsMessage(request, headers, body);
    var lines := FieldLines(request, headers);
    KindsOfLines(headers);
    if LastOf(headers, k, CONNECTION_NAME) {
      ClassifyMeans(headers[k], v);
      EqNoCaseMeans(v, "close");
      LastWins(NO_FIELDS, lines, k);
    }
    AbsentKeeps(NO_FIELDS, lines);
  }

  /** m_host is the value of the last line of that name, as a C string, or null. */
  lemma HostRead(request: seq<char>, headers: seq<seq<char>>, body: seq<char>, k: nat, v: seq<char>)
    requires PlainMessage(request, headers) && Sent(request, headers, body).contentLength >= 0
    ensures LastOf(headers, k, HOST_NAME) && IsValue(headers[k][5..], v) ==>
              var t := Sent(request, headers, body);
              t.host.At? && t.host.i <= |t.data| && CStr(t.data, t.host.i) == v
    ensures NoneOf(headers, HOST_NAME) ==> Sent(request, headers, body).host.Null?
  {
    hide Process, Classify, HasName, IsValue, Atoi, Fold, Message, RequestOf, Plain, EqNoCase, CStr, Placed;
    ReadsMessage(request, headers, body);
    var lines := FieldLines(request, headers);
    KindsOfLines(headers);
    if LastOf(headers, k, HOST_NAME) {
      ClassifyMeans(headers[k], v);
      LastWins(NO_FIELDS, lines, k);
    }
    AbsentKeeps(NO_FIELDS, lines);
  }

  /** m_boundary is what follows the first 44 bytes of the last line of that type, as a C string, or null. */
  lemma BoundaryRead(request: seq<char>, headers: seq<seq<char>>, body: seq<char>, k: nat)
    requires PlainMessage(request, headers) && Sent(request, headers, body).contentLength >= 0
    ensures LastOf(headers, k, FORM_NAME) && |headers[k]| >= 44 ==>
              var t := Sent(request, headers, body);
              t.boundary.At? && t.boundary.i <= |t.data| && CStr(t.data, t.boundary.i) == headers[k][44..]
    ensures NoneOf(headers, FORM_NAME) ==> Sent(request, headers, body).boundary.Null?
  {
    hide Process, Classify, HasName, IsValue, Atoi, Fold, Message, RequestOf, Plain, EqNoCase, CStr, Placed;
    ReadsMessage(request, headers, body);
    var lines := FieldLines(request, headers);
    KindsOfLines(headers);
    if LastOf(headers, k, FORM_NAME) {
      LastWins(NO_FIELDS, lines, k);
    }
    AbsentKeeps(NO_FIELDS, lines);
  }

  /** The answer, and the body: it is awaited in full, stands unchanged at m_checkedidx, and ends in a NUL. */
  lemma BodyRead(request: seq<char>, headers: seq<seq<char>>, body: seq<char>)
    requires PlainMessage(request, headers)
    ensures var (t, code) := Process(Arrive(FRESH, Message(request, headers, body)));
            var n := t.contentLength;
            && (code == GetRequest <==> n == 0 || n <= |body|) && code != BadRequest
            && (code == GetRequest && n > 0 ==>
                  && |t.data| == t.checked + |body| && t.data[t.checked..t.checked + n] == body[..n]
                  && (n < |body| ==>
                        t.data[t.checked + n] == '\0' && t.data[t.checked + n + 1..] == body[n + 1..]))
  {
    hide Process, Classify, Atoi, Fold, Message, RequestOf, Plain, EqNoCase, CStr, Placed, StringAt, Print;
    ReadsMessage(request, headers, body);
    var (t, code) := Process(Arrive(FRESH, Message(request, headers, body)));
    var n := t.contentLength;
    if code == GetRequest && n > 0 {
      var d := t.data[t.checked..];
      assert t.data[t.checked..t.checked + n] == d[..n];
      assert n < |body| ==> t.data[t.checked + n] == d[n] && t.data[t.checked + n + 1..] == d[n + 1..];
    }
  }
}
