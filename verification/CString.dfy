/**
 The C string functions the server calls, on sequences of bytes.  A byte is a `char`; a C string
 that starts at index `i` of a buffer runs to the first NUL at or after `i`.
 */
module CString {

  const NUL: char := '\0'
  const BLANK: set<char> := {' ', '\t'}

  datatype Option<+T> = None | Some(value: T)

  /** A `char*` into the read buffer. */
  datatype Ptr = Null | At(i: nat)

  /** The first index at or after `i` that holds a byte of `cs`, or the end (strpbrk, strchr, strcspn). */
  function Find(d: seq<char>, i: nat, cs: set<char>): (j: nat)
    requires i <= |d|
    ensures i <= j <= |d|
    ensures forall m :: i <= m < j ==> d[m] !in cs
    ensures j < |d| ==> d[j] in cs
    decreases |d| - i
  {
    if i == |d| || d[i] in cs then i else Find(d, i + 1, cs)
  }

  lemma FindIs(d: seq<char>, i: nat, cs: set<char>, j: nat)
    requires i <= j <= |d| && (forall m :: i <= m < j ==> d[m] !in cs) && (j < |d| ==> d[j] in cs)
    ensures Find(d, i, cs) == j
  {
  }

  /** The first index at or after `i` that holds no byte of `cs`, or the end (strspn). */
  function Span(d: seq<char>, i: nat, cs: set<char>): (j: nat)
    requires i <= |d|
    ensures i <= j <= |d|
    ensures forall m :: i <= m < j ==> d[m] in cs
    ensures j < |d| ==> d[j] !in cs
    decreases |d| - i
  {
    if i < |d| && d[i] in cs then Span(d, i + 1, cs) else i
  }

  /** The C string at `i`. */
  function CStr(d: seq<char>, i: nat): (s: seq<char>)
    requires i <= |d|
    ensures |s| <= |d| - i && NUL !in s
    ensures i + |s| < |d| ==> d[i + |s|] == NUL
  {
    d[i..Find(d, i, {NUL})]
  }

  /** A C string is fixed by the bytes up to its terminator. */
  lemma CStrIs(d: seq<char>, i: nat, s: seq<char>)
    requires i + |s| <= |d| && d[i..i + |s|] == s && NUL !in s
    requires i + |s| < |d| ==> d[i + |s|] == NUL
    ensures CStr(d, i) == s
  {
    forall m | i <= m < i + |s|
      ensures d[m] != NUL
    {
      assert d[m] == s[m - i];
    }
  }

  // ---- case-insensitive comparison ----

  function Lower(c: char): char {
    if 'A' <= c <= 'Z' then (c as int + 32) as char else c
  }

  /** strcasecmp(a, b) == 0 */
  predicate EqNoCase(a: seq<char>, b: seq<char>) {
    if a == [] || b == [] then a == b
    else Lower(a[0]) == Lower(b[0]) && EqNoCase(a[1..], b[1..])
  }

  lemma {:induction false} EqNoCaseAt(a: seq<char>, b: seq<char>)
    ensures EqNoCase(a, b) <==> |a| == |b| && forall i :: 0 <= i < |a| ==> Lower(a[i]) == Lower(b[i])
  {
    if a != [] && b != [] {
      EqNoCaseAt(a[1..], b[1..]);
      if |a| == |b| && forall i :: 0 <= i < |a| ==> Lower(a[i]) == Lower(b[i]) {
        assert forall i :: 0 <= i < |a[1..]| ==> Lower(a[1..][i]) == Lower(b[1..][i]);
      }
      if EqNoCase(a, b) {
        assert forall i :: 1 <= i < |a| ==> a[i] == a[1..][i - 1] && b[i] == b[1..][i - 1];
      }
    }
  }

  lemma {:induction false} EqNoCaseRefl(a: seq<char>)
    ensures EqNoCase(a, a)
  {
    if a != [] {
      EqNoCaseRefl(a[1..]);
    }
  }

  /** strncasecmp(t, p, |p|) == 0 */
  predicate StartsNoCase(t: seq<char>, p: seq<char>): (b: bool)
    ensures b ==> |p| <= |t|
  {
    |p| <= |t| && EqNoCase(t[..|p|], p)
  }

  /** `t` after its leading blanks: text + strspn(text, " \t"). */
  function SkipBlank(t: seq<char>): (r: seq<char>)
    ensures |r| <= |t| && r == t[|t| - |r|..]
  {
    t[Span(t, 0, BLANK)..]
  }

  // ---- numbers ----

  predicate IsDigit(c: char) { '0' <= c <= '9' }

  function DigitValue(c: char): (v: nat)
    requires IsDigit(c)
    ensures v < 10
  {
    c as int - '0' as int
  }

  /** The value read by going on over the leading digits of `t` with `acc` already read. */
  function Digits(t: seq<char>, acc: nat): nat {
    if t == [] || !IsDigit(t[0]) then acc else Digits(t[1..], 10 * acc + DigitValue(t[0]))
  }

  const SPACE: set<char> := {' ', '\t', '\n', '\U{000B}', '\U{000C}', '\r'}

  /** atoi, for values that fit an int. */
  function Atoi(t: seq<char>): int {
    var u := t[Span(t, 0, SPACE)..];
    if u != [] && u[0] == '-' then 0 - Digits(u[1..], 0)
    else if u != [] && u[0] == '+' then Digits(u[1..], 0)
    else Digits(u, 0)
  }

  /** "%d" for a non-negative value. */
  function Itoa(n: nat): (s: seq<char>)
    ensures |s| > 0 && forall i :: 0 <= i < |s| ==> IsDigit(s[i])
  {
    var last := ['0' + (n % 10) as char];
    if n < 10 then last else Itoa(n / 10) + last
  }

  lemma {:induction false} DigitsOfConcat(p: seq<char>, q: seq<char>, acc: nat)
    requires forall i :: 0 <= i < |p| ==> IsDigit(p[i])
    ensures Digits(p + q, acc) == Digits(q, Digits(p, acc))
  {
    if p == [] {
      assert p + q == q;
    } else {
      assert (p + q)[1..] == p[1..] + q;
      DigitsOfConcat(p[1..], q, 10 * acc + DigitValue(p[0]));
    }
  }

  lemma {:induction false} DigitsOfItoa(n: nat)
    ensures Digits(Itoa(n), 0) == n
  {
    var last := ['0' + (n % 10) as char];
    assert DigitValue(last[0]) == n % 10;
    if n >= 10 {
      DigitsOfItoa(n / 10);
      DigitsOfConcat(Itoa(n / 10), last, 0);
      assert last[1..] == [];
    }
  }

  /** Reading back what "%d" printed gives the number, for every non-negative number. */
  lemma AtoiOfItoa(n: nat)
    ensures Atoi(Itoa(n)) == n
  {
    var s := Itoa(n);
    assert IsDigit(s[0]);
    assert Span(s, 0, SPACE) == 0;
    assert s[0..] == s;
    DigitsOfItoa(n);
  }
}
