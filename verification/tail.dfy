/** The tail collector: an incremental line parser over whatever chunks its polls happen to read. */
module Tails {
  import opened Events

  type byte = b: int | 0 <= b < 256

  const NEWLINE: byte := 10
  const RETURN: byte := 13

  /** json decoding of one line, as a parameter: None when it fails. */
  type Decoder<!E> = seq<byte> -> Option<E>

  // ---------------------------------------------------------------- lines

  /** bytes.IndexByte(buf, '\n') */
  function IndexNewline(buf: seq<byte>): (i: int)
    ensures -1 <= i < |buf|
    ensures i >= 0 ==> buf[i] == NEWLINE && NEWLINE !in buf[..i]
    ensures i < 0 ==> NEWLINE !in buf
  {
    if buf == [] then -1
    else if buf[0] == NEWLINE then 0
    else
      var i := IndexNewline(buf[1..]);
      if i < 0 then -1 else
      assert buf[..i + 1] == [buf[0]] + buf[1..][..i];
      i + 1
  }

  predicate IsSpace(b: byte) {
    b == 32 || 9 <= b <= 13
  }

  function TrimLeft(s: seq<byte>): seq<byte> {
    if s != [] && IsSpace(s[0]) then TrimLeft(s[1..]) else s
  }

  function TrimRight(s: seq<byte>): seq<byte> {
    if s != [] && IsSpace(s[|s| - 1]) then TrimRight(s[..|s| - 1]) else s
  }

  /** bytes.TrimSpace, on ASCII. */
  function Trim(s: seq<byte>): seq<byte> {
    TrimRight(TrimLeft(s))
  }

  /** The event of one line, if it is not blank and decodes. */
  function LineEvents<E>(decode: Decoder<E>, line: seq<byte>): seq<E> {
    var t := Trim(line);
    if t == [] then []
    else
      var e := decode(t);
      if e.Some? then [e.value] else []
  }

  /** The decodable non-blank complete lines of the bytes. */
  function Emit<E>(decode: Decoder<E>, buf: seq<byte>): seq<E>
    decreases |buf|
  {
    var i := IndexNewline(buf);
    if i < 0 then [] else LineEvents(decode, buf[..i]) + Emit(decode, buf[i + 1..])
  }

  /** The bytes after the last newline. */
  function Rest(buf: seq<byte>): seq<byte>
    decreases |buf|
  {
    var i := IndexNewline(buf);
    if i < 0 then buf else Rest(buf[i + 1..])
  }

  // ---------------------------------------------------------------- chunks

  lemma {:induction false} IndexUnique(buf: seq<byte>, i: nat)
    requires i < |buf| && buf[i] == NEWLINE && NEWLINE !in buf[..i]
    ensures IndexNewline(buf) == i
  {
    if i > 0 {
      assert buf[..i][0] == buf[0];
      forall k | 0 <= k < i - 1 ensures buf[1..][k] != NEWLINE {
        assert buf[..i][k + 1] == buf[k + 1];
      }
      IndexUnique(buf[1..], i - 1);
    }
  }

  lemma {:induction false} IndexAppend(a: seq<byte>, b: seq<byte>)
    requires IndexNewline(a) >= 0
    ensures IndexNewline(a + b) == IndexNewline(a)
  {
    var i := IndexNewline(a);
    assert (a + b)[..i] == a[..i];
    IndexUnique(a + b, i);
  }

  /** Reading b after a gives the lines of a, then those of the remainder of a with b behind it. */
  lemma {:induction false} EmitAppend<E>(decode: Decoder<E>, a: seq<byte>, b: seq<byte>)
    ensures Emit(decode, a + b) == Emit(decode, a) + Emit(decode, Rest(a) + b)
    ensures Rest(a + b) == Rest(Rest(a) + b)
    decreases |a|
  {
    hide Emit, Rest, LineEvents;
    EmitStep(decode, a);
    EmitStep(decode, a + b);
    var i := IndexNewline(a);
    if i >= 0 {
      IndexAppend(a, b);
      assert (a + b)[..i] == a[..i] && (a + b)[i + 1..] == a[i + 1..] + b;
      EmitAppend(decode, a[i + 1..], b);
      Regroup(LineEvents(decode, a[..i]), Emit(decode, a[i + 1..]), Emit(decode, Rest(a[i + 1..]) + b));
    } else {
      assert [] + Emit(decode, a + b) == Emit(decode, a + b);
    }
  }

  /** The remainder is the bytes after the last newline: it holds none, and one stands before it unless there
      is none at all. */
  lemma {:induction false} RestIsLastLine(buf: seq<byte>)
    ensures NEWLINE !in Rest(buf) && |Rest(buf)| <= |buf|
    ensures Rest(buf) == buf[|buf| - |Rest(buf)|..]
    ensures |Rest(buf)| < |buf| ==> buf[|buf| - |Rest(buf)| - 1] == NEWLINE
    decreases |buf|
  {
    var i := IndexNewline(buf);
    if i >= 0 {
      RestIsLastLine(buf[i + 1..]);
    }
  }

  // ---------------------------------------------------------------- the state of one file

  class TailState<!E> {
    const decode: Decoder<E>
    var off: nat
    var partial: seq<byte>
    /** The bytes read since the file was last found truncated, and the events sent for them. */
    ghost var consumed: seq<byte>
    ghost var sent: seq<E>

    ghost predicate Valid()
      reads this
    {
      && off == |consumed|
      && partial == Rest(consumed)
      && sent == Emit(decode, consumed)
    }

    constructor (decode: Decoder<E>)
      ensures Valid() && consumed == [] && sent == []
      ensures this.decode == decode
    {
      this.decode := decode;
      off, partial, consumed, sent := 0, [], [], [];
    }

    /** The loop over the complete lines of buf; false when the context is cancelled after `budget` sends. */
    method SendLines(data: seq<byte>, budget: Option<nat>) returns (ok: bool, emitted: seq<E>, buf: seq<byte>)
      ensures if ok then emitted == Emit(decode, data) && buf == Rest(data) else emitted <= Emit(decode, data)
      ensures budget.None? ==> ok
    {
      hide *;
      ok, emitted, buf := true, [], data;
      var i := IndexNewline(buf);
      EmitStep(decode, buf);
      while i >= 0
        invariant i == IndexNewline(buf)
        invariant emitted + Emit(decode, buf) == Emit(decode, data)
        invariant Rest(buf) == Rest(data)
        decreases |buf|
      {
        EmitStep(decode, buf);
        EmitLine(decode, buf[..i]);
        var line := Trim(buf[..i]);
        buf := buf[i + 1..];
        i := IndexNewline(buf);
        if line != [] {
          var e := decode(line);
          if e.Some? {
            if budget.Some? && |emitted| >= budget.value {
              ok := false;
              return;
            }
            Regroup(emitted, [e.value], Emit(decode, buf));
            emitted := emitted + [e.value];
          }
        }
      }
      EmitStep(decode, buf);
    }

    /** One poll of the file. `readable` tells whether it could be opened; `size` is what Stat reports, None if
        it fails; `content` is what is on disk when it is read, None if the read fails; the context is
        cancelled after `budget` sends. Returns false when cancelled. */
    method Drain(readable: bool, size: Option<nat>, content: Option<seq<byte>>, budget: Option<nat>)
      returns (ok: bool, emitted: seq<E>)
      requires Valid()
      modifies this
      ensures ok ==> Valid()
      ensures budget.None? ==> ok
      // not there: nothing happens
      ensures !readable ==> ok && emitted == [] && consumed == old(consumed) && sent == old(sent)
      // a truncated or rotated file is read again from the start, any other from where it was left
      ensures ok && readable ==> var start := if Truncated(size, old(off)) then 0 else old(off);
        && consumed == old(consumed)[..start] + Unread(content, start)
        && sent == (if Truncated(size, old(off)) then [] else old(sent)) + emitted
      // while the file is only appended to, all that is on disk has been read
      ensures ok && readable && !Truncated(size, old(off)) && content.Some? && old(consumed) <= content.value ==>
        consumed == content.value
      // cancelled: what was sent is a beginning of what would have been
      ensures !ok ==> readable && var start := if Truncated(size, old(off)) then 0 else old(off);
        emitted <= Emit(decode, Rest(old(consumed)[..start]) + Unread(content, start))
    {
      hide Emit, Rest, Unread;
      ok, emitted := true, [];
      if !readable {
        return;
      }
      if size.Some? && size.value < off { // truncated/rotated
        off, partial, consumed, sent := 0, [], [], [];
        NothingRead(decode);
      }
      ghost var start := off;
      assert consumed[..start] == consumed && old(consumed)[..start] == consumed;
      assert partial == Rest(old(consumed)[..start]);
      var data := Unread(content, off);
      if content.Some? && consumed <= content.value {
        AppendOnly(consumed, content.value);
      }
      if data == [] {
        return;
      }
      EmitAppend(decode, consumed, data);
      off := off + |data|;
      consumed := consumed + data;
      var rest;
      ok, emitted, rest := SendLines(partial + data, budget);
      if ok {
        partial := rest;
        sent := sent + emitted;
      }
    }
  }

  lemma {:induction false} Regroup<E>(a: seq<E>, b: seq<E>, c: seq<E>)
    ensures a + (b + c) == (a + b) + c
    ensures a <= a + (b + c)
  {
  }

  /** One turn of the loop. */
  lemma {:induction false} EmitStep<E>(decode: Decoder<E>, buf: seq<byte>)
    ensures var i := IndexNewline(buf);
            if i < 0 then Emit(decode, buf) == [] && Rest(buf) == buf
            else Emit(decode, buf) == LineEvents(decode, buf[..i]) + Emit(decode, buf[i + 1..]) && Rest(buf) == Rest(buf[i + 1..])
  {
    hide LineEvents;
  }

  lemma {:induction false} EmitLine<E>(decode: Decoder<E>, line: seq<byte>)
    ensures LineEvents(decode, line) ==
      if Trim(line) != [] && decode(Trim(line)).Some? then [decode(Trim(line)).value] else []
  {
    hide Trim;
  }

  predicate Truncated(size: Option<nat>, off: nat) {
    size.Some? && size.value < off
  }

  /** The line held back is the bytes after the last newline read. */
  lemma {:induction false} PartialLine<E>(st: TailState<E>)
    requires st.Valid()
    ensures NEWLINE !in st.partial && |st.partial| <= |st.consumed|
    ensures st.partial == st.consumed[|st.consumed| - |st.partial|..]
    ensures |st.partial| < |st.consumed| ==> st.consumed[|st.consumed| - |st.partial| - 1] == NEWLINE
  {
    RestIsLastLine(st.consumed);
  }

  /** io.ReadAll from offset `off`. */
  function Unread(content: Option<seq<byte>>, off: nat): seq<byte> {
    if content.Some? && off <= |content.value| then content.value[off..] else []
  }

  lemma {:induction false} NothingRead<E>(decode: Decoder<E>)
    ensures Emit(decode, []) == [] && Rest([]) == []
  {
  }

  /** On an append-only file a poll leaves exactly the bytes on disk consumed. */
  lemma {:induction false} AppendOnly(consumed: seq<byte>, content: seq<byte>)
    requires consumed <= content
    ensures consumed[..|consumed|] + Unread(Some(content), |consumed|) == content
  {
  }

  // ---------------------------------------------------------------- whole runs

  function Concat(chunks: seq<seq<byte>>): seq<byte> {
    if chunks == [] then [] else Concat(chunks[..|chunks| - 1]) + chunks[|chunks| - 1]
  }

  /** What draining the chunks one by one emits and leaves over. */
  function DrainAll<E>(decode: Decoder<E>, chunks: seq<seq<byte>>): (seq<E>, seq<byte>) {
    if chunks == [] then ([], [])
    else
      var (sent, partial) := DrainAll(decode, chunks[..|chunks| - 1]);
      var buf := partial + chunks[|chunks| - 1];
      (sent + Emit(decode, buf), Rest(buf))
  }

  /** Chunk invariance: however the polls split the bytes, the events are those of the whole. */
  lemma {:induction false} ChunkInvariance<E>(decode: Decoder<E>, chunks: seq<seq<byte>>)
    ensures DrainAll(decode, chunks) == (Emit(decode, Concat(chunks)), Rest(Concat(chunks)))
  {
    if chunks != [] {
      var n := |chunks| - 1;
      ChunkInvariance(decode, chunks[..n]);
      EmitAppend(decode, Concat(chunks[..n]), chunks[n]);
    }
  }

  lemma {:induction false} SameBytesSameEvents<E>(decode: Decoder<E>, chunks: seq<seq<byte>>, chunks': seq<seq<byte>>)
    requires Concat(chunks) == Concat(chunks')
    ensures DrainAll(decode, chunks) == DrainAll(decode, chunks')
  {
    ChunkInvariance(decode, chunks);
    ChunkInvariance(decode, chunks');
  }

  // ---------------------------------------------------------------- reading the file at once

  /** bufio.ScanLines strips one carriage return before the newline. */
  function DropReturn(line: seq<byte>): seq<byte> {
    if line != [] && line[|line| - 1] == RETURN then line[..|line| - 1] else line
  }

  /** trace.Read: every non-empty line must decode, the last one even without its newline. */
  function ReadTrace<E>(decode: Decoder<E>, buf: seq<byte>): Option<seq<E>>
    decreases |buf|
  {
    if buf == [] then Some([])
    else
      var i := IndexNewline(buf);
      var line := DropReturn(if i < 0 then buf else buf[..i]);
      var rest := ReadTrace(decode, if i < 0 then [] else buf[i + 1..]);
      if line == [] then rest
      else
        var e := decode(line);
        if e.Some? && rest.Some? then Some([e.value] + rest.value) else None
  }

  /** JSON ignores white space around a value, and a blank line holds none. */
  ghost predicate IgnoresSpace<E>(decode: Decoder<E>) {
    forall b :: decode(b).Some? ==> Trim(b) != [] && decode(Trim(b)) == decode(b)
  }

  lemma {:induction false} TrimRightReturn(s: seq<byte>)
    requires s != [] && s[|s| - 1] == RETURN
    ensures TrimRight(s) == TrimRight(s[..|s| - 1])
  {
  }

  lemma {:induction false} TrimLeftLast(s: seq<byte>)
    requires s != []
    ensures TrimLeft(s) == if TrimLeft(s[..|s| - 1]) == [] then (if IsSpace(s[|s| - 1]) then [] else [s[|s| - 1]])
                           else TrimLeft(s[..|s| - 1]) + [s[|s| - 1]]
    decreases |s|
  {
    if |s| == 1 {
      assert s[1..] == [] && s[..0] == [];
      assert s == [s[0]];
    } else if IsSpace(s[0]) {
      TrimLeftLast(s[1..]);
      assert s[1..][..|s| - 2] == s[..|s| - 1][1..];
    } else {
      assert s == s[..|s| - 1] + [s[|s| - 1]];
    }
  }

  lemma {:induction false} TrimDropReturn(s: seq<byte>)
    ensures Trim(DropReturn(s)) == Trim(s)
  {
    if s != [] && s[|s| - 1] == RETURN {
      TrimLeftLast(s);
      var t := TrimLeft(s);
      if t != [] {
        TrimRightReturn(t);
        assert t[..|t| - 1] == TrimLeft(s[..|s| - 1]);
      }
    }
  }

  lemma {:induction false} LineRead<E>(decode: Decoder<E>, line: seq<byte>)
    requires IgnoresSpace(decode)
    requires DropReturn(line) == [] || decode(DropReturn(line)).Some?
    ensures LineEvents(decode, line) == if DropReturn(line) == [] then [] else [decode(DropReturn(line)).value]
  {
    hide Trim;
    TrimDropReturn(line);
    if DropReturn(line) == [] {
      BlankTrim();
    }
  }

  lemma {:induction false} BlankTrim()
    ensures Trim([]) == []
  {
  }

  /** On newline-terminated content that trace.Read accepts, tailing emits what it reads. */
  lemma {:induction false} TailMatchesRead<E>(decode: Decoder<E>, buf: seq<byte>)
    requires IgnoresSpace(decode)
    requires buf == [] || buf[|buf| - 1] == NEWLINE
    requires ReadTrace(decode, buf).Some?
    ensures Emit(decode, buf) == ReadTrace(decode, buf).value && Rest(buf) == []
    decreases |buf|
  {
    hide LineEvents, DropReturn, IgnoresSpace;
    if buf != [] {
      var i := IndexNewline(buf);
      assert buf[|buf| - 1] in buf;
      LineRead(decode, buf[..i]);
      TailMatchesRead(decode, buf[i + 1..]);
    }
  }

  ghost predicate AllSpace(s: seq<byte>) {
    forall b :: b in s ==> IsSpace(b)
  }

  lemma {:induction false} LeftExactly(s: seq<byte>)
    ensures |TrimLeft(s)| <= |s| && TrimLeft(s) == s[|s| - |TrimLeft(s)|..] && AllSpace(s[..|s| - |TrimLeft(s)|])
    ensures TrimLeft(s) != [] ==> !IsSpace(TrimLeft(s)[0])
  {
    if s != [] && IsSpace(s[0]) {
      LeftExactly(s[1..]);
      var k := |s| - 1 - |TrimLeft(s[1..])|;
      assert s[..k + 1] == [s[0]] + s[1..][..k];
    }
  }

  lemma {:induction false} RightExactly(s: seq<byte>)
    ensures |TrimRight(s)| <= |s| && TrimRight(s) == s[..|TrimRight(s)|] && AllSpace(s[|TrimRight(s)|..])
    ensures TrimRight(s) != [] ==> !IsSpace(TrimRight(s)[|TrimRight(s)| - 1])
  {
    if s != [] && IsSpace(s[|s| - 1]) {
      var n := |s| - 1;
      RightExactly(s[..n]);
      var k := |TrimRight(s[..n])|;
      assert s[k..] == s[..n][k..] + [s[n]];
    }
  }

  /** What is decoded of a line is the line without the white space around it. */
  lemma {:induction false} TrimExactly(s: seq<byte>) returns (before: seq<byte>, after: seq<byte>)
    ensures s == before + Trim(s) + after && AllSpace(before) && AllSpace(after)
    ensures Trim(s) != [] ==> !IsSpace(Trim(s)[0]) && !IsSpace(Trim(s)[|Trim(s)| - 1])
  {
    hide IsSpace, AllSpace;
    LeftExactly(s);
    var t := TrimLeft(s);
    RightExactly(t);
    before, after := s[..|s| - |t|], t[|Trim(s)|..];
    assert s == before + t;
  }
}
