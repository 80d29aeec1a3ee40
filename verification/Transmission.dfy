/**
 http_conn::write: the header block goes out by send, then the file by sendfile, over as many calls as
 the socket needs.  Every send asks for m_writeidx bytes, not for the rest, as the code does.
 */
module Transmission {

  /** What the kernel answers to the next send or sendfile: it moves some bytes, or EAGAIN, or an error. */
  datatype Io = Moved(n: nat) | Again | Failed

  datatype Outcome = Later | Broken | Complete | Nothing

  /** The sending fields.  `buf` is the memory from m_writebuf on, the array and what stands behind it; `wire` is
      what has left, `over` whether a send ever moved more than byte_to_send, `reach` how far into the memory the
      sends have asked. */
  datatype Tx = Tx(buf: seq<char>, writeIdx: nat, have: nat, toSend: int,
                   open: bool, file: seq<char>, offset: nat, len: int, wire: seq<char>, over: bool, reach: nat)

  function Clamp(n: nat, hi: nat): nat {
    if n < 1 && hi >= 1 then 1 else if n > hi then hi else n
  }

  function Max(a: nat, b: nat): nat {
    if a < b then b else a
  }

  /** A send asks for m_writeidx bytes, whatever has been sent; the kernel moves at least one of them. */
  function Send(s: Tx, n: nat): Tx
    requires s.have + s.writeIdx <= |s.buf|
  {
    var k := Clamp(n, s.writeIdx);
    s.(toSend := s.toSend - k, have := s.have + k, wire := s.wire + s.buf[s.have..s.have + k],
       over := s.over || k > s.toSend, reach := Max(s.reach, s.have + s.writeIdx))
  }

  function FileCount(s: Tx, n: nat): (r: nat)
    requires s.offset + s.len == |s.file|
    ensures s.offset + r <= |s.file| || r == 0
  {
    if s.len <= 0 then 0 else Clamp(n, s.len)
  }

  function SendFile(s: Tx, n: nat): (r: Tx)
    requires s.offset + s.len == |s.file|
    ensures Ready(s) && s.toSend <= 0 ==> Ready(r)
    ensures r == s.(len := r.len, offset := r.offset, wire := r.wire)
  {
    var k := FileCount(s, n);
    if s.offset + k > |s.file| then s
    else s.(len := s.len - k, offset := s.offset + k, wire := s.wire + s.file[s.offset..s.offset + k])
  }

  /** What holds between any two system calls. */
  ghost predicate Sound(s: Tx) {
    && s.have + s.toSend == s.writeIdx && s.have <= |s.buf| && 2 * s.writeIdx <= |s.buf| + 1
    && (s.reach == 0 || s.reach + 1 <= 2 * s.writeIdx)
    && s.offset + s.len == |s.file| && s.offset <= |s.file|
    && s.wire == s.buf[..s.have] + s.file[..s.offset]
    && (s.offset > 0 ==> s.toSend <= 0)
    && (s.over <==> s.toSend < 0)
  }

  /** A file of known length is open until it has been sent. */
  ghost predicate Ready(s: Tx) {
    Sound(s) && (s.len > 0 ==> s.open)
  }

  /** The loop of write with the answers `script`; when they run out the socket is not ready any more. */
  function Loop(s: Tx, script: seq<Io>): (r: (Tx, Outcome))
    requires Ready(s)
    ensures Sound(r.0) && (r.1 != Broken ==> Ready(r.0))
    ensures r.0.buf == s.buf && r.0.file == s.file && r.0.writeIdx == s.writeIdx
    ensures s.writeIdx <= 1 && !s.over ==> !r.0.over
    ensures r.1 == Complete ==> r.0.toSend <= 0 && r.0.len <= 0
    decreases |script|, if s.toSend > 0 then 1 else 4
  {
    if s.toSend > 0 then
      if script == [] || script[0] == Again then (s, Later)
      else if script[0] == Failed then (s, Broken)
      else WriteFile(Send(s, script[0].n), script[1..])
    else WriteFile(s, script)
  }

  function WriteFile(s: Tx, script: seq<Io>): (r: (Tx, Outcome))
    requires Ready(s)
    ensures Sound(r.0) && (r.1 != Broken ==> Ready(r.0))
    ensures r.0.buf == s.buf && r.0.file == s.file && r.0.writeIdx == s.writeIdx
    ensures s.writeIdx <= 1 && !s.over ==> !r.0.over
    ensures r.1 == Complete ==> r.0.toSend <= 0 && r.0.len <= 0
    decreases |script|, 3
  {
    if s.toSend <= 0 && s.open then
      if script == [] || script[0] == Again then (s, Later)
      else if script[0] == Failed then (s.(open := false), Broken)
      else WriteEnd(SendFile(s, script[0].n), script[1..])
    else WriteEnd(s, script)
  }

  function WriteEnd(s: Tx, script: seq<Io>): (r: (Tx, Outcome))
    requires Ready(s)
    ensures Sound(r.0) && (r.1 != Broken ==> Ready(r.0))
    ensures r.0.buf == s.buf && r.0.file == s.file && r.0.writeIdx == s.writeIdx
    ensures s.writeIdx <= 1 && !s.over ==> !r.0.over
    ensures r.1 == Complete ==> r.0.toSend <= 0 && r.0.len <= 0
    decreases |script|, if s.toSend <= 0 && s.len > 0 then 5 else 2
  {
    if s.toSend <= 0 && s.len <= 0 then (s.(open := false), Complete) else Loop(s, script)
  }

  /** One call of write. */
  function OneCall(s: Tx, script: seq<Io>): (r: (Tx, Outcome))
    requires Ready(s)
    ensures Sound(r.0) && (r.1 == Later ==> Ready(r.0))
    ensures r.0.buf == s.buf && r.0.file == s.file && r.0.writeIdx == s.writeIdx
    ensures s.writeIdx <= 1 && !s.over ==> !r.0.over
    ensures r.1 == Complete ==> r.0.toSend <= 0 && r.0.len <= 0
  {
    if s.toSend <= 0 && !s.open then (s, Nothing) else Loop(s, script)
  }

  /** The calls of write that the event loop makes for one answer, each with its own system call results. */
  function Calls(s: Tx, scripts: seq<seq<Io>>): (r: (Tx, Outcome))
    requires Ready(s)
    ensures Sound(r.0) && r.0.buf == s.buf && r.0.file == s.file && r.0.writeIdx == s.writeIdx
    ensures s.writeIdx <= 1 && !s.over ==> !r.0.over
    ensures r.1 == Complete ==> r.0.toSend <= 0 && r.0.len <= 0
    decreases |scripts|
  {
    if scripts == [] then (s, Later)
    else
      var (t, o) := OneCall(s, scripts[0]);
      if o == Later then Calls(t, scripts[1..]) else (t, o)
  }

  /** An answer before its first byte has left: `n` bytes in the buffer and, if it has one, an open file. */
  function Start(buf: seq<char>, n: nat, open: bool, file: seq<char>): (s: Tx)
    requires 2 * n <= |buf| + 1 && (open || file == [])
    ensures Ready(s)
  {
    Tx(buf, n, 0, n, open, file, 0, |file|, [], false, 0)
  }

  /** Whatever the kernel does over any number of calls: the wire holds the header, perhaps followed by bytes that
      stand behind it in memory, and no file byte before the header's last; on completion it ends with the whole
      file, and it is exactly header and file if and only if no send moved more than the rest. */
  lemma OnTheWire(buf: seq<char>, n: nat, open: bool, file: seq<char>, scripts: seq<seq<Io>>)
    requires 2 * n <= |buf| + 1 && (open || file == [])
    ensures var (t, o) := Calls(Start(buf, n, open, file), scripts);
            && t.wire == buf[..t.have] + file[..t.offset] && t.have <= |buf| && t.offset <= |file|
            && t.have + t.toSend == n && t.offset + t.len == |file|
            && (t.offset > 0 ==> buf[..n] <= t.wire)
            && (o == Complete ==>
                  && t.wire == buf[..n] + buf[n..t.have] + file && n <= t.have
                  && (t.wire == buf[..n] + file <==> !t.over))
  {
    hide Calls;
    var (t, o) := Calls(Start(buf, n, open, file), scripts);
    if t.toSend <= 0 {
      HeaderIsOut(t);
    }
  }

  /** The wire once the whole header is on it, and when the whole file is. */
  lemma HeaderIsOut(t: Tx)
    requires Sound(t) && t.toSend <= 0
    ensures t.buf[..t.writeIdx] <= t.wire
    ensures t.len <= 0 ==>
              && t.wire == t.buf[..t.writeIdx] + t.buf[t.writeIdx..t.have] + t.file
              && (t.wire == t.buf[..t.writeIdx] + t.file <==> !t.over)
  {
    var n := t.writeIdx;
    assert t.buf[..t.have] == t.buf[..n] + t.buf[n..t.have];
    assert t.wire[..n] == t.buf[..n];
    if t.len <= 0 {
      assert t.file[..t.offset] == t.file;
      if t.wire == t.buf[..n] + t.file {
        assert |t.wire| == t.have + |t.file|;
      }
    }
  }

  /** The states between the three system calls of SendsTooMuch. */
  lemma TwoSends(buf: seq<char>, n: nat, open: bool, file: seq<char>)
    requires n >= 2 && 2 * n <= |buf| + 1 && (open || file == [])
    ensures var s1 := Send(Start(buf, n, open, file), 1);
            Ready(s1) && s1.toSend > 0 && s1.len >= 0 &&
            var s2 := Send(s1, n);
            && Ready(s2) && s2.toSend < 0 && s2.over && s2.open == open
            && s2.wire == buf[..n + 1] && (!open ==> s2.len == 0)
            && var s3 := SendFile(s2, |file|);
               Ready(s3) && s3.toSend < 0 && s3.len == 0 && s3.over && s3.wire == buf[..n + 1] + file
  {
    assert [] + buf[0..1] + buf[1..n + 1] == buf[..n + 1];
  }

  /** A send after a partial one may run past the header: every send asks for the full header length. */
  lemma SendsTooMuch(buf: seq<char>, n: nat, open: bool, file: seq<char>)
    requires n >= 2 && 2 * n <= |buf| + 1 && (open || file == [])
    ensures var (t, o) := Calls(Start(buf, n, open, file), [[Moved(1), Moved(n), Moved(|file|)]]);
            o == Complete && t.over && t.wire == buf[..n + 1] + file
  {
    var s := Start(buf, n, open, file);
    TwoSends(buf, n, open, file);
    hide Send, SendFile, Sound, Start, Loop, WriteFile, WriteEnd;
    var (s1, script) := (Send(s, 1), [Moved(1), Moved(n), Moved(|file|)]);
    assert script[0] == Moved(1) && script[1..] == [Moved(n), Moved(|file|)];
    assert script[1..][0] == Moved(n) && script[1..][1..] == [Moved(|file|)];
    MoveSome(s, script);
    MoveSome(s1, script[1..]);
    MoveFile(Send(s1, n), |file|);
    OneCallOnly(s, script);
    assert buf[..n + 1] + file == buf[..n + 1] || open;
  }

  /** One send and on through the loop. */
  lemma MoveSome(s: Tx, script: seq<Io>)
    requires Ready(s) && s.toSend > 0 && script != [] && script[0].Moved? && Ready(Send(s, script[0].n))
    ensures var t := Send(s, script[0].n);
            Loop(s, script) == if t.toSend > 0 then Loop(t, script[1..]) else WriteFile(t, script[1..])
  {
    SendReady(s, script[0].n);
    hide Send, SendFile, Sound;
    var (t, rest) := (Send(s, script[0].n), script[1..]);
    if t.toSend > 0 {
      assert WriteFile(t, rest) == WriteEnd(t, rest) == Loop(t, rest);
    }
  }

  /** The rest of the file, if there is one, in one go. */
  lemma MoveFile(s: Tx, n: nat)
    requires Ready(s) && s.toSend <= 0 && s.offset + s.len == |s.file|
    requires if s.open then SendFile(s, n).toSend <= 0 && SendFile(s, n).len <= 0 else s.len <= 0
    ensures WriteFile(s, [Moved(n)]) == ((if s.open then SendFile(s, n) else s).(open := false), Complete)
  {
    hide Send, SendFile, Sound;
  }

  lemma OneCallOnly(s: Tx, script: seq<Io>)
    requires Ready(s) && s.toSend > 0 && Loop(s, script).1 == Complete
    ensures Calls(s, [script]) == Loop(s, script)
  {
    hide Send, SendFile, Sound, Loop;
  }

  /** Every completed answer is exactly header and file, whatever the kernel does, if and only if the header is
      at most one byte long. */
  lemma ExactIff(buf: seq<char>, n: nat, open: bool, file: seq<char>)
    requires 2 * n <= |buf| + 1 && (open || file == [])
    ensures (forall scripts: seq<seq<Io>> ::
               var (t, o) := Calls(Start(buf, n, open, file), scripts); o == Complete ==> t.wire == buf[..n] + file)
       <==> n <= 1
  {
    if n <= 1 {
      forall scripts: seq<seq<Io>>
        ensures var (t, o) := Calls(Start(buf, n, open, file), scripts); o == Complete ==> t.wire == buf[..n] + file
      {
        OnTheWire(buf, n, open, file, scripts);
      }
    } else {
      SendsTooMuch(buf, n, open, file);
      assert |buf[..n + 1] + file| != |buf[..n] + file|;
    }
  }

  /** The states between two sends, the first of which leaves one byte. */
  lemma LastByte(buf: seq<char>, n: nat, open: bool, file: seq<char>)
    requires n >= 1 && 2 * n <= |buf| + 1 && (open || file == [])
    ensures var s1 := Send(Start(buf, n, open, file), n - 1);
            && Ready(s1) && s1.open == open && s1.reach == n && (n == 1 ==> s1.toSend == 0)
            && (n > 1 ==>
                  && s1.toSend == 1 && s1.have + s1.writeIdx <= |s1.buf|
                  && (var s2 := Send(s1, 1); Ready(s2) && s2.toSend == 0 && s2.reach == 2 * n - 1))
  {
  }

  /** A send that leaves one byte, and the next one: it asks for everything up to 2 * n - 1. */
  lemma FarSend(buf: seq<char>, n: nat, open: bool, file: seq<char>) returns (script: seq<Io>)
    requires n >= 1 && 2 * n <= |buf| + 1 && (open || file == [])
    ensures Calls(Start(buf, n, open, file), [script]).0.reach == 2 * n - 1
  {
    var s := Start(buf, n, open, file);
    var s1 := Send(s, n - 1);
    LastByte(buf, n, open, file);
    hide Send, Sound;
    script := if n == 1 then [Moved(0)] else [Moved(n - 1), Moved(1)];
    assert [script][1..] == [];
    if n == 1 {
      assert script[1..] == [];
      NoMoreSends(s1);
      assert Loop(s, script) == WriteFile(s1, []);
    } else {
      assert script[1..] == [Moved(1)] && script[1..][1..] == [];
      NoMoreSends(Send(s1, 1));
      assert Loop(s, script) == WriteEnd(s1, script[1..]) == WriteFile(Send(s1, 1), []);
    }
  }

  lemma NoMoreSends(s: Tx)
    requires Ready(s) && s.toSend <= 0
    ensures WriteFile(s, []).0.reach == s.reach && WriteFile(s, []).1 in {Later, Complete}
  {
  }

  /** No send in any run asks for bytes behind a buffer of `size` bytes if and only if the header is not longer than
      half of it, rounded up. */
  lemma InsideIff(buf: seq<char>, n: nat, open: bool, file: seq<char>, size: nat)
    requires 2 * n <= |buf| + 1 && (open || file == [])
    ensures (forall scripts: seq<seq<Io>> :: Calls(Start(buf, n, open, file), scripts).0.reach <= size)
       <==> 2 * n <= size + 1
  {
    if 2 * n > size + 1 {
      var script := FarSend(buf, n, open, file);
    }
  }

  // ---- how a call ends ----

  predicate AllMoved(script: seq<Io>) {
    forall i :: 0 <= i < |script| ==> script[i].Moved?
  }

  /** Answers `a` that only move bytes, and then `b`: unless `a` completes the answer, the call goes on in the state
      that `a` leads to. */
  lemma {:induction false} LoopGoesOn(s: Tx, a: seq<Io>, b: seq<Io>)
    requires Ready(s) && AllMoved(a)
    ensures var (t, o) := Loop(s, a);
            && (o == Later || o == Complete) && Loop(s, a + b) == (if o == Later then Loop(t, b) else (t, o))
            && (o == Later ==> t.open == s.open && (t.toSend > 0 || t.open))
    decreases |a|, if s.toSend > 0 then 1 else 4
  {
    hide Send, SendFile, Sound;
    if s.toSend > 0 {
      if a == [] {
        assert a + b == b;
      } else {
        SendReady(s, a[0].n);
        FileGoesOn(Send(s, a[0].n), a[1..], b);
        assert (a + b)[0] == a[0] && (a + b)[1..] == a[1..] + b;
      }
    } else {
      FileGoesOn(s, a, b);
    }
  }

  lemma {:induction false} FileGoesOn(s: Tx, a: seq<Io>, b: seq<Io>)
    requires Ready(s) && AllMoved(a)
    ensures var (t, o) := WriteFile(s, a);
            && (o == Later || o == Complete) && WriteFile(s, a + b) == (if o == Later then Loop(t, b) else (t, o))
            && (o == Later ==> t.open == s.open && (t.toSend > 0 || t.open))
    decreases |a|, 3
  {
    hide Send, SendFile, Sound;
    if s.toSend <= 0 && s.open {
      if a == [] {
        assert a + b == b;
      } else {
        FileReady(s);
        EndGoesOn(SendFile(s, a[0].n), a[1..], b);
        assert (a + b)[0] == a[0] && (a + b)[1..] == a[1..] + b;
      }
    } else {
      EndGoesOn(s, a, b);
    }
  }

  lemma {:induction false} EndGoesOn(s: Tx, a: seq<Io>, b: seq<Io>)
    requires Ready(s) && AllMoved(a)
    ensures var (t, o) := WriteEnd(s, a);
            && (o == Later || o == Complete) && WriteEnd(s, a + b) == (if o == Later then Loop(t, b) else (t, o))
            && (o == Later ==> t.open == s.open && (t.toSend > 0 || t.open))
    decreases |a|, if s.toSend <= 0 && s.len > 0 then 5 else 2
  {
    hide Send, SendFile, Sound;
    if s.toSend > 0 || s.len > 0 {
      LoopGoesOn(s, a, b);
    }
  }

  lemma FileReady(s: Tx)
    requires Ready(s)
    ensures s.offset + s.len == |s.file|
  {
  }

  lemma SendReady(s: Tx, n: nat)
    requires Ready(s) && s.toSend > 0
    ensures s.have + s.writeIdx <= |s.buf|
    ensures Ready(Send(s, n)) && Send(s, n).open == s.open && Send(s, n).len == s.len && Send(s, n).toSend < s.toSend
  {
  }

  /** The answers up to the first one that moves nothing. */
  function Moves(script: seq<Io>): (a: seq<Io>)
    ensures AllMoved(a) && a <= script && (|a| < |script| ==> !script[|a|].Moved?)
  {
    if script == [] || !script[0].Moved? then [] else [script[0]] + Moves(script[1..])
  }

  /** What the first answer does that moves nothing. */
  lemma LoopStops(t: Tx, tail: seq<Io>)
    requires Ready(t) && (t.toSend > 0 || t.open) && (tail == [] || !tail[0].Moved?)
    ensures Loop(t, tail) ==
              if tail != [] && tail[0] == Failed then (if t.toSend > 0 then t else t.(open := false), Broken)
              else (t, Later)
  {
    hide Send, SendFile;
  }

  /** How a call of write ends.  It completes the answer if the answers that move bytes do; else EAGAIN, or the end of
      the answers, leaves everything as those answers left it, file open, for a later call; and an error breaks it
      off, closing the file if it comes from sendfile. */
  lemma CallEnds(s: Tx, script: seq<Io>)
    requires Ready(s) && (s.toSend > 0 || s.open)
    ensures var (a, r) := (Moves(script), OneCall(s, script));
            var (t, o) := OneCall(s, a);
            && (o == Complete || o == Later)
            && (o == Complete ==> r == (t, Complete) && !t.open)
            && (o == Later ==>
                  && t.open == s.open
                  && (|a| == |script| || script[|a|] == Again ==> r == (t, Later))
                  && (|a| < |script| && script[|a|] == Failed ==>
                        r == (if t.toSend > 0 then t else t.(open := false), Broken)))
  {
    var a := Moves(script);
    hide Send, SendFile, Loop, Moves, AllMoved, Sound;
    WholeEnds(s, a, script);
  }

  lemma WholeEnds(s: Tx, a: seq<Io>, script: seq<Io>)
    requires Ready(s) && AllMoved(a) && a <= script && (|a| < |script| ==> !script[|a|].Moved?)
    ensures var ((t, o), r) := (Loop(s, a), Loop(s, script));
            && (o == Complete || o == Later) && (o == Complete ==> r == (t, Complete) && !t.open)
            && (o == Later ==>
                  && t.open == s.open
                  && r == if |a| < |script| && script[|a|] == Failed
                          then (if t.toSend > 0 then t else t.(open := false), Broken)
                          else (t, Later))
  {
    var rest := script[|a|..];
    assert a + rest == script;
    hide Send, SendFile, Loop, AllMoved, Sound;
    LoopEnds(s, a, rest);
  }

  lemma LoopEnds(s: Tx, a: seq<Io>, rest: seq<Io>)
    requires Ready(s) && AllMoved(a) && (rest == [] || !rest[0].Moved?)
    ensures var ((t, o), r) := (Loop(s, a), Loop(s, a + rest));
            && (o == Complete || o == Later) && (o == Complete ==> r == (t, Complete) && !t.open)
            && (o == Later ==>
                  && t.open == s.open
                  && r == if rest != [] && rest[0] == Failed
                          then (if t.toSend > 0 then t else t.(open := false), Broken)
                          else (t, Later))
  {
    hide Send, SendFile, Sound, Loop, AllMoved;
    LoopGoesOn(s, a, rest);
    ClosedAtEnd(s, a);
    if Loop(s, a).1 == Later {
      LoopStops(Loop(s, a).0, rest);
    }
  }

  lemma {:induction false} ClosedAtEnd(s: Tx, a: seq<Io>)
    requires Ready(s)
    ensures Loop(s, a).1 == Complete ==> !Loop(s, a).0.open
    decreases |a|, if s.toSend > 0 then 1 else 4
  {
    hide Send, SendFile, Sound;
    if s.toSend > 0 {
      if a != [] && a[0].Moved? {
        SendReady(s, a[0].n);
        ClosedAfterFile(Send(s, a[0].n), a[1..]);
      }
    } else {
      ClosedAfterFile(s, a);
    }
  }

  lemma {:induction false} ClosedAfterFile(s: Tx, a: seq<Io>)
    requires Ready(s)
    ensures WriteFile(s, a).1 == Complete ==> !WriteFile(s, a).0.open
    decreases |a|, 3
  {
    hide Send, SendFile, Sound;
    if s.toSend <= 0 && s.open {
      if a != [] && a[0].Moved? {
        FileReady(s);
        var u := SendFile(s, a[0].n);
        if u.toSend > 0 || u.len > 0 {
          ClosedAtEnd(u, a[1..]);
        }
      }
    } else if s.toSend > 0 || s.len > 0 {
      ClosedAtEnd(s, a);
    }
  }

  /** A call is broken off exactly when an error is the first answer that moves nothing, and the ones before it do not
      complete the answer. */
  lemma BrokenIff(s: Tx, script: seq<Io>)
    requires Ready(s) && (s.toSend > 0 || s.open)
    ensures var a := Moves(script);
            OneCall(s, script).1 == Broken
            <==> |a| < |script| && script[|a|] == Failed && OneCall(s, a).1 == Later
  {
    CallEnds(s, script);
  }

  /** Interrupting a call by EAGAIN changes nothing: whatever would have been answered behind it in that call, going on
      with `b` in the next call gives what one call with the answers in a row gives. */
  lemma AgainResumes(s: Tx, a: seq<Io>, behind: seq<Io>, b: seq<Io>)
    requires Ready(s) && (s.toSend > 0 || s.open) && AllMoved(a) && OneCall(s, a).1 == Later
    ensures Calls(s, [a + [Again] + behind, b]) == Calls(s, [a + b])
  {
    hide Send, SendFile, Sound;
    var t := Loop(s, a).0;
    LoopGoesOn(s, a, [Again] + behind);
    LoopGoesOn(s, a, b);
    assert a + [Again] + behind == a + ([Again] + behind);
    assert OneCall(s, a + [Again] + behind) == (t, Later);
    assert [a + [Again] + behind, b][1..] == [b] && [b][1..] == [] && [a + b][1..] == [];
    assert OneCall(t, b) == Loop(t, b) == OneCall(s, a + b);
  }

  /** The answers that are still needed at most: one for each byte, and one for an open file that is empty. */
  function Needed(s: Tx): nat {
    (if s.toSend > 0 then s.toSend else 0) + if !s.open then 0 else if s.len > 1 then s.len else 1
  }

  /** As many answers that move bytes as there are bytes complete the answer. */
  lemma {:induction false} EnoughMoves(s: Tx, a: seq<Io>)
    requires Ready(s) && AllMoved(a) && |a| >= Needed(s)
    ensures Loop(s, a).1 == Complete
    decreases |a|, if s.toSend > 0 then 1 else 4
  {
    if s.toSend > 0 {
      SendReady(s, a[0].n);
      hide Send, SendFile, Sound;
      EnoughForFile(Send(s, a[0].n), a[1..]);
    } else {
      EnoughForFile(s, a);
    }
  }

  lemma {:induction false} EnoughForFile(s: Tx, a: seq<Io>)
    requires Ready(s) && AllMoved(a) && |a| >= Needed(s)
    ensures WriteFile(s, a).1 == Complete
    decreases |a|, 3
  {
    if s.toSend <= 0 && s.open {
      var u := SendFile(s, a[0].n);
      assert u.len <= 0 || u.len < s.len;
      hide Send, SendFile, Sound;
      if u.len > 0 {
        EnoughMoves(u, a[1..]);
      }
    } else if s.toSend > 0 || s.len > 0 {
      EnoughMoves(s, a);
    }
  }

  function Joined(scripts: seq<seq<Io>>): seq<Io> {
    if scripts == [] then [] else scripts[0] + Joined(scripts[1..])
  }

  /** Calls that only move bytes amount to one call with all their answers. */
  lemma {:induction false} CallsAreOne(s: Tx, scripts: seq<seq<Io>>)
    requires Ready(s) && (s.toSend > 0 || s.open) && scripts != []
    requires forall i :: 0 <= i < |scripts| ==> AllMoved(scripts[i])
    ensures Calls(s, scripts) == OneCall(s, Joined(scripts))
    decreases |scripts|
  {
    hide Send, SendFile, Sound;
    var (a, rest) := (scripts[0], scripts[1..]);
    LoopGoesOn(s, a, Joined(rest));
    var (t, o) := Loop(s, a);
    if o == Later {
      if rest == [] {
        assert a + Joined(rest) == a;
      } else {
        CallsAreOne(t, rest);
      }
    }
  }

  /** An answer is sent: when the kernel moves bytes often enough, however the moves fall into calls, write completes,
      and then the header is a prefix of the wire and the file its rest. */
  lemma EnoughSends(buf: seq<char>, n: nat, open: bool, file: seq<char>, scripts: seq<seq<Io>>)
    requires 2 * n <= |buf| + 1 && (open || file == []) && (n > 0 || open)
    requires forall i :: 0 <= i < |scripts| ==> AllMoved(scripts[i])
    requires |Joined(scripts)| > n + |file|
    ensures var (t, o) := Calls(Start(buf, n, open, file), scripts);
            o == Complete && !t.open && buf[..n] <= t.wire && t.offset == |file| && t.len == 0
  {
    var s := Start(buf, n, open, file);
    JoinedMoves(scripts);
    CallsAreOne(s, scripts);
    EnoughMoves(s, Joined(scripts));
    ClosedAtEnd(s, Joined(scripts));
    hide Loop, Joined, Calls, OneCall;
    OnTheWire(buf, n, open, file, scripts);
  }

  lemma {:induction false} JoinedMoves(scripts: seq<seq<Io>>)
    requires forall i :: 0 <= i < |scripts| ==> AllMoved(scripts[i])
    ensures AllMoved(Joined(scripts))
  {
    if scripts != [] {
      JoinedMoves(scripts[1..]);
    }
  }

  /** The fields and the call of write on the object. */
  class Sender {
    const writeBuf: array<char>
    const file: seq<char>
    var writeIdx: nat
    var byteHaveSend: nat
    var byteToSend: int
    var fdOpen: bool
    var offset: nat
    var len: int
    ghost var wire: seq<char>
    ghost var over: bool
    ghost var reach: nat

    ghost function State(): Tx
      reads this, writeBuf
    {
      Tx(writeBuf[..], writeIdx, byteHaveSend, byteToSend, fdOpen, file, offset, len, wire, over, reach)
    }

    /** A header block of `n` bytes at the front of the memory, and an open file, ready to be sent. */
    constructor (header: array<char>, n: nat, open: bool, content: seq<char>)
      requires 2 * n <= header.Length + 1 && (open || content == [])
      ensures State() == Start(header[..], n, open, content) && writeBuf == header
    {
      writeBuf, file := header, content;
      writeIdx, byteHaveSend, byteToSend := n, 0, n;
      fdOpen, offset, len := open, 0, |content|;
      wire, over, reach := [], false, 0;
    }

    /** send(m_sockfd, m_writebuf + byte_have_send, m_writeidx): the kernel takes some of the bytes. */
    method SendSome(n: nat)
      requires Ready(State()) && byteToSend > 0
      modifies this`wire, this`over, this`reach, this`byteToSend, this`byteHaveSend
      ensures Ready(State()) && State() == Send(old(State()), n)
    {
      ghost var buf := writeBuf[..];
      var temp := Clamp(n, writeIdx);
      assert writeBuf[byteHaveSend..byteHaveSend + temp] == buf[byteHaveSend..byteHaveSend + temp];
      wire := wire + writeBuf[byteHaveSend..byteHaveSend + temp];
      over, reach := over || temp > byteToSend, Max(reach, byteHaveSend + writeIdx);
      byteToSend := byteToSend - temp;
      byteHaveSend := byteHaveSend + temp;
      assert writeBuf[..] == buf;
    }

    /** sendfile(m_sockfd, m_fd, &m_offset, m_len) */
    method SendFileSome(n: nat)
      requires Ready(State()) && byteToSend <= 0
      modifies this`wire, this`len, this`offset
      ensures Ready(State()) && State() == SendFile(old(State()), n)
    {
      ghost var buf := writeBuf[..];
      var ret := if len <= 0 then 0 else Clamp(n, len);
      wire := wire + file[offset..offset + ret];
      len := len - ret;
      offset := offset + ret;
      assert writeBuf[..] == buf;
    }

    /** write(); `script` holds the kernel's answers. */
    method Write(script: seq<Io>) returns (o: Outcome)
      requires Ready(State())
      modifies this
      ensures (State(), o) == OneCall(old(State()), script)
    {
      hide Send, SendFile, Sound;
      if byteToSend <= 0 && !fdOpen {
        return Nothing;
      }
      ghost var result := Loop(State(), script);
      var i := 0;
      while true
        invariant 0 <= i <= |script|
        invariant Ready(State()) && Loop(State(), script[i..]) == result
        decreases |script| - i, if byteToSend > 0 then 1 else 0
      {
        ghost var rest := script[i..];
        if byteToSend > 0 {
          if i == |script| || script[i] == Again {
            return Later;
          }
          if script[i] == Failed {
            return Broken;
          }
          SendSome(script[i].n);
          i := i + 1;
          assert rest[1..] == script[i..];
          rest := script[i..];
        }
        assert WriteFile(State(), rest) == result;
        if byteToSend <= 0 && fdOpen {
          if i == |script| || script[i] == Again {
            return Later;
          }
          if script[i] == Failed {
            fdOpen := false;
            return Broken;
          }
          SendFileSome(script[i].n);
          i := i + 1;
          assert rest[1..] == script[i..];
          rest := script[i..];
        }
        assert WriteEnd(State(), rest) == result;
        if byteToSend <= 0 && len <= 0 {
          fdOpen := false;
          return Complete;
        }
      }
    }
  }
}
