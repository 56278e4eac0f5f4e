/**
 * The stack walker (phpspy_trace.c) and the event handler it reports to
 * (pyroscope_api.c): do_trace copies the executor globals, trace_stack
 * follows the `prev_execute_data` chain from the current frame outwards,
 * decodes each frame's function, class, file and line into the context's
 * current frame, and hands it to the handler, which files it by depth.
 */
module Trace {
  import opened Defs
  import opened CFormat
  import opened ProcMem

  /** `zend_function.type` of a function written in PHP (ZEND_USER_FUNCTION). */
  const ZEND_USER_FUNCTION: nat := 2
  /** offsetof(zend_string, val) on a 64-bit build: refcount and flags, hash, length. */
  const ZSTR_VAL_OFFSET: nat := 24

  const MAIN: string := "<main>"
  const INTERNAL: string := "<internal>"

  /** The C `int` that a uint32 `line_start` becomes: values from 2^31 up wrap to negative numbers. */
  function Int32(n: Uint32): (r: int)
    ensures -0x8000_0000 <= r < 0x8000_0000
    ensures (r - n) % 0x1_0000_0000 == 0
  {
    if n < 0x8000_0000 then n else n - 0x1_0000_0000
  }

  /** Address of a zend_string's payload, with 64-bit pointer arithmetic. */
  function PayloadAddr(raddr: Addr): Addr {
    (raddr + ZSTR_VAL_OFFSET) % ADDR_LIMIT
  }

  /** The status the pyroscope handler returns for an event: only ERROR is reported back. */
  function HandlerStatus(eventType: int): (r: Status)
    ensures r != OK <==> eventType == EVENT_ERROR
  {
    if eventType == EVENT_ERROR then EVENT_ERROR as Status else OK
  }

  /** What a walk changes: the context's current frame, the session's frame array, the target's liveness flag. */
  datatype WalkState = WalkState(frame: TraceFrame, frames: seq<TraceFrame>, aliveCheck: bool)

  predicate WalkShaped(s: WalkState) {
    LocShaped(s.frame.loc) && |s.frames| == MAX_STACK_DEPTH
  }

  /** A decoding step: its status and the state it leaves. */
  datatype Step = Step(rv: Status, s: WalkState)

  /** sprint_zstring's result: status, buffer, the recorded length, the liveness flag. */
  datatype ZText = ZText(rv: Status, buf: seq<char>, len: nat, aliveCheck: bool)

  /**
   * sprint_zstring into `buf`: clear it, copy the header, record
   * n = min(len, max(1, size) - 1), copy n payload bytes, NUL at n. A direct
   * short read leaves stale bytes below n; NUL is written at n all the same.
   */
  function SprintZstringSpec(direct: bool, mem: RemoteMemory, aliveCheck: bool, raddr: Addr, buf: seq<char>): (z: ZText)
    requires |buf| >= 1
    ensures |z.buf| == |buf| && z.len <= |buf| - 1
  {
    var cleared := buf[0 := NUL];
    var h := ReadRecord(direct, mem, aliveCheck, raddr, mem.strings);
    if h.rv != OK then ZText(h.rv, cleared, 0, h.aliveCheck)
    else
      var zs := h.value.value;
      var n := Min(zs.len, Max(1, |buf|) - 1);
      var c := CopyOutcome(direct, mem, h.aliveCheck, PayloadAddr(raddr), n, |zs.val|);
      if c.rv != OK then ZText(c.rv, cleared, n, c.aliveCheck)
      else ZText(OK, (zs.val[..c.count] + cleared[c.count..])[n := NUL], n, c.aliveCheck)
  }

  /**
   * The clamp: whatever length the remote header claims, the recorded
   * length is min(len, size - 1), nothing past index n changes, the first
   * byte is cleared even on failure, and a complete copy of a NUL-free
   * payload reads back as exactly its first n bytes.
   */
  lemma SprintZstringClamp(direct: bool, mem: RemoteMemory, aliveCheck: bool, raddr: Addr, buf: seq<char>)
    requires |buf| >= 1
    ensures var z := SprintZstringSpec(direct, mem, aliveCheck, raddr, buf);
      && (z.buf[0] == NUL || (z.rv == OK && z.len >= 1))
      && (forall i :: z.len < i < |buf| ==> z.buf[i] == buf[i])
      && (z.rv == OK ==> z.buf[z.len] == NUL)
      && (raddr !in mem.strings ==> z.rv != OK && z.len == 0)
      && (z.rv == OK ==> raddr in mem.strings && z.len == Min(mem.strings[raddr].len, |buf| - 1))
  {
  }

  /** A complete copy of a NUL-free payload: `%s` then reads the first n payload bytes. */
  lemma SprintZstringReadsBack(direct: bool, mem: RemoteMemory, aliveCheck: bool, raddr: Addr, buf: seq<char>)
    requires |buf| >= 1
    requires raddr in mem.strings
    requires NUL !in mem.strings[raddr].val
    requires |mem.strings[raddr].val| >= Min(mem.strings[raddr].len, |buf| - 1)
    ensures var z := SprintZstringSpec(direct, mem, aliveCheck, raddr, buf);
      z.rv == OK ==> CStrAt(z.buf, 0) == mem.strings[raddr].val[..z.len]
  {
    var z := SprintZstringSpec(direct, mem, aliveCheck, raddr, buf);
    if z.rv == OK {
      var zs := mem.strings[raddr];
      var h := ReadRecord(direct, mem, aliveCheck, raddr, mem.strings);
      var c := CopyOutcome(direct, mem, h.aliveCheck, PayloadAddr(raddr), z.len, |zs.val|);
      assert c.count == z.len;
      assert forall i :: 0 <= i < z.len ==> zs.val[i] in zs.val;
      CStrAtIs(z.buf, 0, zs.val[..z.len]);
    }
  }

  /**
   * A short direct read is taken as complete: the recorded length is the
   * clamped claim, though only the readable bytes were copied and the
   * rest below it keep what the buffer held before.
   */
  lemma SprintZstringShortRead(mem: RemoteMemory, aliveCheck: bool, raddr: Addr, buf: seq<char>)
    requires |buf| >= 2 && mem.alive && raddr in mem.strings && SeekOk(raddr) && SeekOk(PayloadAddr(raddr))
    requires var zs := mem.strings[raddr]; 0 < |zs.val| < Min(zs.len, |buf| - 1)
    ensures var z := SprintZstringSpec(true, mem, aliveCheck, raddr, buf);
      var k := |mem.strings[raddr].val|;
      && z.rv == OK && z.len == Min(mem.strings[raddr].len, |buf| - 1)
      && z.buf[..k] == mem.strings[raddr].val
      && z.buf[k..z.len] == buf[k..z.len]
  {
  }

  /** The function-name part of a frame: the remote name, or "<main>" when there is none. */
  function DecodeFunctionName(direct: bool, mem: RemoteMemory, s: WalkState, zf: ZendFunction): (r: Step)
    requires WalkShaped(s)
    ensures WalkShaped(r.s) && r.s.frames == s.frames
    ensures r.s.frame == s.frame.(loc := s.frame.loc.(func := r.s.frame.loc.func, funcLen := r.s.frame.loc.funcLen))
  {
    var loc := s.frame.loc;
    if zf.functionName != NULL then
      var z := SprintZstringSpec(direct, mem, s.aliveCheck, zf.functionName, loc.func);
      Step(z.rv, s.(frame := s.frame.(loc := loc.(func := z.buf, funcLen := z.len)), aliveCheck := z.aliveCheck))
    else
      Step(OK, s.(frame := s.frame.(loc := loc.(func := SnprintfWrite(loc.func, 0, |loc.func|, MAIN), funcLen := |MAIN|))))
  }

  /** The class part of a frame: the scope's name, or an empty class with length 0 when there is no scope. */
  function DecodeClassName(direct: bool, mem: RemoteMemory, s: WalkState, zf: ZendFunction): (r: Step)
    requires WalkShaped(s)
    ensures WalkShaped(r.s) && r.s.frames == s.frames
    ensures r.s.frame == s.frame.(loc := s.frame.loc.(className := r.s.frame.loc.className, classLen := r.s.frame.loc.classLen))
  {
    var loc := s.frame.loc;
    if zf.scope != NULL then
      var ce := ReadRecord(direct, mem, s.aliveCheck, zf.scope, mem.classes);
      if ce.rv != OK then Step(ce.rv, s.(aliveCheck := ce.aliveCheck))
      else
        var z := SprintZstringSpec(direct, mem, ce.aliveCheck, ce.value.value.name, loc.className);
        Step(z.rv, s.(frame := s.frame.(loc := loc.(className := z.buf, classLen := z.len)), aliveCheck := z.aliveCheck))
    else
      Step(OK, s.(frame := s.frame.(loc := loc.(className := loc.className[0 := NUL], classLen := 0))))
  }

  /** The file and line of a frame: from the op_array of a user function with a file name, else "<internal>" and -1. */
  function DecodeFile(direct: bool, mem: RemoteMemory, s: WalkState, zf: ZendFunction): (r: Step)
    requires WalkShaped(s)
    ensures WalkShaped(r.s) && r.s.frames == s.frames
    ensures r.s.frame == s.frame.(loc := s.frame.loc.(file := r.s.frame.loc.file, fileLen := r.s.frame.loc.fileLen,
                                                      lineno := r.s.frame.loc.lineno))
  {
    var loc := s.frame.loc;
    if zf.fnType == ZEND_USER_FUNCTION && zf.filename != NULL then
      var z := SprintZstringSpec(direct, mem, s.aliveCheck, zf.filename, loc.file);
      var s1 := s.(frame := s.frame.(loc := loc.(file := z.buf, fileLen := z.len)), aliveCheck := z.aliveCheck);
      if z.rv != OK then Step(z.rv, s1)
      else Step(OK, s1.(frame := s1.frame.(loc := s1.frame.loc.(lineno := Int32(zf.lineStart)))))
    else
      Step(OK, s.(frame := s.frame.(loc := loc.(file := SnprintfWrite(loc.file, 0, |loc.file|, INTERNAL),
                                                fileLen := |INTERNAL|, lineno := -1))))
  }

  /** A NULL function name decodes as "<main>" of length 6. */
  lemma FunctionNameMain(direct: bool, mem: RemoteMemory, s: WalkState, zf: ZendFunction)
    requires WalkShaped(s) && zf.functionName == NULL
    ensures var r := DecodeFunctionName(direct, mem, s, zf);
      r.rv == OK && CStrAt(r.s.frame.loc.func, 0) == MAIN && r.s.frame.loc.funcLen == 6
  {
    SnprintfReadBack(s.frame.loc.func, 0, |s.frame.loc.func|, MAIN);
  }

  /** A NULL scope gives an empty class name of length 0; otherwise the name comes from the scope's class record. */
  lemma ClassNameOfScope(direct: bool, mem: RemoteMemory, s: WalkState, zf: ZendFunction)
    requires WalkShaped(s)
    ensures var r := DecodeClassName(direct, mem, s, zf);
      && (zf.scope == NULL ==> r.rv == OK && CStrAt(r.s.frame.loc.className, 0) == [] && r.s.frame.loc.classLen == 0)
      && (zf.scope != NULL && r.rv == OK ==>
            zf.scope in mem.classes &&
            var ce := ReadRecord(direct, mem, s.aliveCheck, zf.scope, mem.classes);
            var z := SprintZstringSpec(direct, mem, ce.aliveCheck, mem.classes[zf.scope].name, s.frame.loc.className);
            r.s.frame.loc.className == z.buf && r.s.frame.loc.classLen == z.len)
  {
  }

  /** File and line: a user function with a file name gives that file and its line_start as a C int; else "<internal>" and -1. */
  lemma FileAndLine(direct: bool, mem: RemoteMemory, s: WalkState, zf: ZendFunction)
    requires WalkShaped(s)
    ensures var r := DecodeFile(direct, mem, s, zf);
      && (zf.fnType == ZEND_USER_FUNCTION && zf.filename != NULL ==>
            var z := SprintZstringSpec(direct, mem, s.aliveCheck, zf.filename, s.frame.loc.file);
            r.rv == z.rv && r.s.frame.loc.file == z.buf && r.s.frame.loc.fileLen == z.len &&
            r.s.frame.loc.lineno == (if z.rv == OK then Int32(zf.lineStart) else s.frame.loc.lineno))
      && (!(zf.fnType == ZEND_USER_FUNCTION && zf.filename != NULL) ==>
            r.rv == OK && CStrAt(r.s.frame.loc.file, 0) == INTERNAL && r.s.frame.loc.fileLen == 10 &&
            r.s.frame.loc.lineno == -1)
  {
    SnprintfReadBack(s.frame.loc.file, 0, |s.frame.loc.file|, INTERNAL);
  }

  /** The three decoding steps of one frame, in the source's order, the first failure ending it. */
  function DecodeLoc(direct: bool, mem: RemoteMemory, s: WalkState, fn: ZendFunction): (r: Step)
    requires WalkShaped(s)
    ensures WalkShaped(r.s) && r.s.frames == s.frames && r.s.frame.depth == s.frame.depth
  {
    var r1 := DecodeFunctionName(direct, mem, s, fn);
    if r1.rv != OK then r1
    else
      var r2 := DecodeClassName(direct, mem, r1.s, fn);
      if r2.rv != OK then r2
      else DecodeFile(direct, mem, r2.s, fn)
  }

  /** One turn of trace_stack's loop: its status, the state after it, and the next frame's address. */
  datatype FrameOut = FrameOut(rv: Status, s: WalkState, next: Addr)

  /**
   * One turn of trace_stack's loop at `remote`: copy the execute_data and
   * the function, decode name, class, file and line, number the frame and
   * hand it to the handler, which stores it at that index.
   */
  function FrameStep(direct: bool, mem: RemoteMemory, s: WalkState, remote: Addr, depth: nat): (r: FrameOut)
    requires WalkShaped(s) && depth < MAX_STACK_DEPTH
    ensures WalkShaped(r.s)
  {
    var ed := ReadRecord(direct, mem, s.aliveCheck, remote, mem.executeData);
    if ed.rv != OK then FrameOut(ed.rv, s.(aliveCheck := ed.aliveCheck), NULL)
    else
      var zf := ReadRecord(direct, mem, ed.aliveCheck, ed.value.value.func, mem.functions);
      var s0 := s.(aliveCheck := zf.aliveCheck);
      if zf.rv != OK then FrameOut(zf.rv, s0, NULL)
      else
        var r := DecodeLoc(direct, mem, s0, zf.value.value);
        if r.rv != OK then FrameOut(r.rv, r.s, NULL)
        else
          var numbered := r.s.(frame := r.s.frame.(depth := depth));
          var stored := numbered.(frames := numbered.frames[depth := numbered.frame]);
          var hs := HandlerStatus(EVENT_FRAME);
          if hs != OK then FrameOut(hs, stored, NULL)
          else FrameOut(OK, stored, ed.value.value.prevExecuteData)
  }

  /** A failed turn stores nothing; a successful one stores exactly the numbered frame at `depth`. */
  lemma FrameStepStores(direct: bool, mem: RemoteMemory, s: WalkState, remote: Addr, depth: nat)
    requires WalkShaped(s) && depth < MAX_STACK_DEPTH
    ensures var r := FrameStep(direct, mem, s, remote, depth);
      && (r.rv != OK ==> r.s.frames == s.frames && r.s.frame.depth == s.frame.depth)
      && (r.rv == OK ==> r.s.frame.depth == depth && r.s.frames == s.frames[depth := r.s.frame])
      && (r.rv == OK ==> remote in mem.executeData && r.next == mem.executeData[remote].prevExecuteData)
  {
  }

  /** Where a walk stopped: status, state, number of frames handed over, and the address it stopped at. */
  datatype WalkEnd = WalkEnd(rv: Status, s: WalkState, depth: nat, remote: Addr)

  /** trace_stack from `remote` with `depth` frames done: stops at NULL, at MAX_STACK_DEPTH, or at the first failure. */
  function TraceFrom(direct: bool, mem: RemoteMemory, s: WalkState, remote: Addr, depth: nat): (e: WalkEnd)
    requires WalkShaped(s) && depth <= MAX_STACK_DEPTH
    ensures WalkShaped(e.s) && depth <= e.depth <= MAX_STACK_DEPTH
    decreases MAX_STACK_DEPTH - depth
  {
    if remote == NULL || depth == MAX_STACK_DEPTH then WalkEnd(OK, s, depth, remote)
    else
      var f := FrameStep(direct, mem, s, remote, depth);
      if f.rv != OK then WalkEnd(f.rv, f.s, depth, remote)
      else TraceFrom(direct, mem, f.s, f.next, depth + 1)
  }

  /** One turn of the walk: a failed frame ends it where it stands, a stored one moves on to the caller's frame. */
  lemma TraceFromUnfold(direct: bool, mem: RemoteMemory, s: WalkState, remote: Addr, depth: nat)
    requires WalkShaped(s) && depth < MAX_STACK_DEPTH && remote != NULL
    ensures var f := FrameStep(direct, mem, s, remote, depth);
      TraceFrom(direct, mem, s, remote, depth) ==
        if f.rv != OK then WalkEnd(f.rv, f.s, depth, remote) else TraceFrom(direct, mem, f.s, f.next, depth + 1)
  {
  }

  /**
   * What a walk leaves: at most MAX_STACK_DEPTH frames; a successful walk
   * ended at NULL or at the bound; the frames it handed over sit at
   * consecutive indices, each numbered by its index; every other slot keeps
   * its earlier contents, also after a failure.
   */
  lemma {:induction false} TraceFromFrames(direct: bool, mem: RemoteMemory, s: WalkState, remote: Addr, depth: nat)
    requires WalkShaped(s) && depth <= MAX_STACK_DEPTH
    ensures var e := TraceFrom(direct, mem, s, remote, depth);
      && depth <= e.depth <= MAX_STACK_DEPTH
      && (e.rv == OK ==> e.remote == NULL || e.depth == MAX_STACK_DEPTH)
      && (e.rv != OK ==> e.remote != NULL && e.depth < MAX_STACK_DEPTH)
      && (forall k :: depth <= k < e.depth ==> e.s.frames[k].depth == k)
      && (forall k :: 0 <= k < MAX_STACK_DEPTH && !(depth <= k < e.depth) ==> e.s.frames[k] == s.frames[k])
    decreases MAX_STACK_DEPTH - depth
  {
    hide FrameStep;
    if remote != NULL && depth != MAX_STACK_DEPTH {
      var f := FrameStep(direct, mem, s, remote, depth);
      FrameStepStores(direct, mem, s, remote, depth);
      if f.rv == OK {
        var e := TraceFrom(direct, mem, f.s, f.next, depth + 1);
        assert TraceFrom(direct, mem, s, remote, depth) == e;
        TraceFromFrames(direct, mem, f.s, f.next, depth + 1);
        assert f.s.frames[depth] == f.s.frame && f.s.frame.depth == depth;
        forall k | 0 <= k < MAX_STACK_DEPTH && !(depth <= k < e.depth)
          ensures e.s.frames[k] == s.frames[k]
        {
          assert e.s.frames[k] == f.s.frames[k];
        }
      }
    }
  }

  /**
   * The current frame's depth after a walk: untouched when no frame was
   * handed over, else the index of the last frame handed over, one less
   * than the number of frames.
   */
  lemma {:induction false} TraceFromLastDepth(direct: bool, mem: RemoteMemory, s: WalkState, remote: Addr, depth: nat)
    requires WalkShaped(s) && depth <= MAX_STACK_DEPTH
    ensures var e := TraceFrom(direct, mem, s, remote, depth);
      && (e.depth == depth ==> e.s.frame.depth == s.frame.depth)
      && (e.depth > depth ==> e.s.frame.depth == e.depth - 1)
    decreases MAX_STACK_DEPTH - depth
  {
    hide FrameStep;
    if remote != NULL && depth != MAX_STACK_DEPTH {
      var f := FrameStep(direct, mem, s, remote, depth);
      FrameStepStores(direct, mem, s, remote, depth);
      if f.rv == OK {
        TraceFromLastDepth(direct, mem, f.s, f.next, depth + 1);
        TraceFromFrames(direct, mem, f.s, f.next, depth + 1);
      }
    }
  }

  /** do_trace's result and the state it leaves. */
  datatype TraceOut = TraceOut(rv: Status, s: WalkState)

  /**
   * do_trace: copy the executor globals (a failure is returned), raise
   * STACK_BEGIN, walk from the current execute_data, raise STACK_END when
   * the walk succeeded, and return OK whatever the walk returned.
   */
  function DoTraceSpec(direct: bool, mem: RemoteMemory, s: WalkState, egAddr: Addr): (t: TraceOut)
    requires WalkShaped(s)
    ensures WalkShaped(t.s)
  {
    var eg := ReadRecord(direct, mem, s.aliveCheck, egAddr, mem.executorGlobals);
    var s0 := s.(aliveCheck := eg.aliveCheck);
    if eg.rv != OK then TraceOut(eg.rv, s0)
    else
      var begin := HandlerStatus(EVENT_STACK_BEGIN);
      if begin != OK then TraceOut(begin, s0)
      else
        var w := TraceFrom(direct, mem, s0, eg.value.value.currentExecuteData, 0);
        var rv := OK | w.rv;
        if rv == OK && HandlerStatus(EVENT_STACK_END) != OK then TraceOut(HandlerStatus(EVENT_STACK_END), w.s)
        else TraceOut(OK, w.s)
  }

  /**
   * do_trace fails exactly when the executor globals cannot be copied, and
   * then changes nothing but the liveness flag; once they are copied it
   * returns OK even when the walk failed, keeping what the walk stored.
   */
  lemma DoTraceSwallowsWalkErrors(direct: bool, mem: RemoteMemory, s: WalkState, egAddr: Addr)
    requires WalkShaped(s)
    ensures var eg := ReadRecord(direct, mem, s.aliveCheck, egAddr, mem.executorGlobals);
      var t := DoTraceSpec(direct, mem, s, egAddr);
      && (eg.rv != OK ==> t.rv == eg.rv && t.s == s.(aliveCheck := eg.aliveCheck))
      && (eg.rv == OK ==>
            t.rv == OK &&
            t.s == TraceFrom(direct, mem, s.(aliveCheck := eg.aliveCheck), mem.executorGlobals[egAddr].currentExecuteData, 0).s)
  {
  }

  /** After do_trace the current frame's depth is the one it had or the index of a stored frame, so within the frame array. */
  lemma DoTraceLastDepth(direct: bool, mem: RemoteMemory, s: WalkState, egAddr: Addr)
    requires WalkShaped(s)
    ensures var t := DoTraceSpec(direct, mem, s, egAddr);
      t.s.frame.depth == s.frame.depth || 0 <= t.s.frame.depth < MAX_STACK_DEPTH
  {
    var eg := ReadRecord(direct, mem, s.aliveCheck, egAddr, mem.executorGlobals);
    if eg.rv == OK {
      var s0 := s.(aliveCheck := eg.aliveCheck);
      var remote := mem.executorGlobals[egAddr].currentExecuteData;
      TraceFromLastDepth(direct, mem, s0, remote, 0);
      TraceFromFrames(direct, mem, s0, remote, 0);
    }
  }

  /** What sprint_zarray_bucket leaves for one bucket: its status and the text it renders. */
  datatype Rendered = Rendered(rv: Status, text: string)

  /** Buckets sprint_zarray visits for an array of `n` elements. */
  function BucketCount(n: nat): (r: nat)
    ensures r <= MAX_ARRAY_BUCKETS && r <= n
    ensures r == n || r == MAX_ARRAY_BUCKETS
  {
    Min(n, MAX_ARRAY_BUCKETS)
  }

  /** sprint_zarray's result: status, buffer, bytes advanced, buckets visited, liveness flag. */
  datatype ZList = ZList(rv: Status, buf: seq<char>, len: nat, visited: nat, aliveCheck: bool)

  /** The write cursor of sprint_zarray: the buffer, bytes advanced, room left. */
  datatype Cursor = Cursor(buf: seq<char>, used: nat, size: nat)

  /**
   * One bucket's text written snprintf-style at the cursor, which advances
   * by what was written, then a comma while at least two bytes of room
   * remain. The cursor never passes the window and keeps one byte of room.
   */
  function AppendBucket(buf: seq<char>, base: nat, used: nat, size: nat, text: string): (c: Cursor)
    requires base + used + size <= |buf|
    ensures |c.buf| == |buf| && c.used + c.size == used + size && used <= c.used
    ensures size >= 1 ==> c.size >= 1
    ensures forall j :: 0 <= j < |buf| && !(base + used <= j < base + used + size) ==> c.buf[j] == buf[j]
  {
    var k := if size == 0 then 0 else Min(|text|, size - 1);
    var written := SnprintfWrite(buf, base + used, size, text);
    if size - k >= 2 then Cursor(written[base + used + k := ','], used + k + 1, size - k - 1)
    else Cursor(written, used + k, size - k)
  }

  /**
   * One bucket at a cursor with room: the cursor moves past the text's
   * first min(|text|, size - 1) bytes, which are the text's own; a ','
   * follows them and takes one more byte exactly when at least two bytes
   * of room are left after the text, and otherwise the NUL snprintf wrote
   * stays there and one byte of room is left.
   */
  lemma AppendBucketCommaRule(buf: seq<char>, base: nat, used: nat, size: nat, text: string)
    requires base + used + size <= |buf| && size >= 1
    ensures var k := Min(|text|, size - 1);
      var c := AppendBucket(buf, base, used, size, text);
      && c.buf[base + used..base + used + k] == text[..k]
      && (size - k >= 2 ==> c.used == used + k + 1 && c.buf[base + used + k] == ',')
      && (size - k < 2 ==> c.used == used + k && c.size == 1 && c.buf[base + used + k] == NUL)
  {
    var k := Min(|text|, size - 1);
    var w := SnprintfWrite(buf, base + used, size, text);
    assert forall j :: 0 <= j < k ==> w[base + used + j] == text[j];
  }

  /** The bucket loop from bucket `i`; the first bucket that fails to render ends it with that status. */
  function BucketsFrom(buf: seq<char>, base: nat, used: nat, size: nat, i: nat, count: nat,
                       render: (nat, nat) -> Rendered, aliveCheck: bool): (z: ZList)
    requires base + used + size <= |buf|
    ensures |z.buf| == |buf| && z.aliveCheck == aliveCheck
    decreases count - i
  {
    if i >= count then ZList(OK, buf, used, i, aliveCheck)
    else
      var b := render(i, size);
      if b.rv != OK then ZList(b.rv, buf, used, i, aliveCheck)
      else
        var c := AppendBucket(buf, base, used, size, b.text);
        BucketsFrom(c.buf, base, c.used, c.size, i + 1, count, render, aliveCheck)
  }

  /**
   * sprint_zarray: copy the zend_array header, copy min(nNumOfElements,
   * MAX_ARRAY_BUCKETS) buckets from arData, then render them one by one.
   * The rendering of a bucket (key and zval) is `render`.
   */
  function SprintZarraySpec(direct: bool, mem: RemoteMemory, aliveCheck: bool, raddr: Addr,
                            buf: seq<char>, off: nat, size: nat, render: (nat, nat) -> Rendered): (z: ZList)
    requires off + size <= |buf|
    ensures |z.buf| == |buf|
  {
    var h := ReadRecord(direct, mem, aliveCheck, raddr, mem.arrays);
    if h.rv != OK then ZList(h.rv, buf, 0, 0, h.aliveCheck)
    else
      var za := h.value.value;
      var count := BucketCount(za.nNumOfElements);
      var readable := if za.arData in mem.bucketTables then mem.bucketTables[za.arData] else 0;
      var c := CopyOutcome(direct, mem, h.aliveCheck, za.arData, count, readable);
      if c.rv != OK then ZList(c.rv, buf, 0, 0, c.aliveCheck)
      else BucketsFrom(buf, off, 0, size, 0, count, render, c.aliveCheck)
  }

  /**
   * The bucket loop never leaves its window: with at least one byte of room
   * the room never runs out, the cursor plus the room stay equal to the
   * window, bytes outside it are untouched, and no more than `count`
   * buckets are visited.
   */
  lemma {:induction false} BucketsStayInWindow(buf: seq<char>, base: nat, used: nat, size: nat, i: nat, count: nat,
                                               render: (nat, nat) -> Rendered, aliveCheck: bool)
    requires base + used + size <= |buf|
    ensures var z := BucketsFrom(buf, base, used, size, i, count, render, aliveCheck);
      && used <= z.len <= used + size
      && (size >= 1 ==> z.len < used + size)
      && (forall j :: 0 <= j < |buf| && !(base + used <= j < base + used + size) ==> z.buf[j] == buf[j])
      && (i <= count ==> i <= z.visited <= count)
      && (z.rv == OK && i <= count ==> z.visited == count)
    decreases count - i
  {
    if i < count {
      var b := render(i, size);
      if b.rv == OK {
        var c := AppendBucket(buf, base, used, size, b.text);
        BucketsStayInWindow(c.buf, base, c.used, c.size, i + 1, count, render, aliveCheck);
      }
    }
  }

  /**
   * sprint_zarray visits at most min(nNumOfElements, MAX_ARRAY_BUCKETS)
   * buckets, stays inside `buf[off .. off + size]` and, given room for at
   * least the terminator, advances less than `size` bytes.
   */
  lemma SprintZarrayBounded(direct: bool, mem: RemoteMemory, aliveCheck: bool, raddr: Addr,
                            buf: seq<char>, off: nat, size: nat, render: (nat, nat) -> Rendered)
    requires off + size <= |buf|
    ensures var z := SprintZarraySpec(direct, mem, aliveCheck, raddr, buf, off, size, render);
      && z.visited <= MAX_ARRAY_BUCKETS
      && (raddr in mem.arrays ==> z.visited <= mem.arrays[raddr].nNumOfElements)
      && z.len <= size && (size >= 1 ==> z.len < size)
      && (forall j :: 0 <= j < |buf| && !(off <= j < off + size) ==> z.buf[j] == buf[j])
  {
    var h := ReadRecord(direct, mem, aliveCheck, raddr, mem.arrays);
    if h.rv == OK {
      var za := h.value.value;
      var count := BucketCount(za.nNumOfElements);
      var readable := if za.arData in mem.bucketTables then mem.bucketTables[za.arData] else 0;
      var c := CopyOutcome(direct, mem, h.aliveCheck, za.arData, count, readable);
      if c.rv == OK {
        BucketsStayInWindow(buf, off, 0, size, 0, count, render, c.aliveCheck);
      }
    }
  }

  /** One bucket appended at the cursor `used` bytes past `base`, with `size` bytes of room. */
  method WriteBucket(buf: array<char>, base: nat, used: nat, size: nat, text: string) returns (used': nat, size': nat)
    requires base + used + size <= buf.Length
    modifies buf
    ensures Cursor(buf[..], used', size') == AppendBucket(old(buf[..]), base, used, size, text)
  {
    var k := if size == 0 then 0 else Min(|text|, size - 1);
    var _ := Snprintf(buf, base + used, size, text);
    used', size' := used + k, size - k;
    if size' >= 2 {
      buf[base + used'] := ',';
      used', size' := used' + 1, size' - 1;
    }
  }

  /** The bucket loop of sprint_zarray over `count` buckets into `buf[base .. base + size]`. */
  method RenderBuckets(buf: array<char>, base: nat, size: nat, count: nat, render: (nat, nat) -> Rendered,
                        ghost aliveCheck: bool) returns (rv: Rv, len: nat)
    requires base + size <= buf.Length
    modifies buf
    ensures var z := BucketsFrom(old(buf[..]), base, 0, size, 0, count, render, aliveCheck);
      rv.code == z.rv && buf[..] == z.buf && len == z.len
  {
    len := 0;
    var i: nat, room: nat := 0, size;
    while i < count
      invariant i <= count && len + room == size
      invariant BucketsFrom(buf[..], base, len, room, i, count, render, aliveCheck) ==
                BucketsFrom(old(buf[..]), base, 0, size, 0, count, render, aliveCheck)
      decreases count - i
    {
      var b := render(i, room);
      if b.rv != OK {
        return Rv(b.rv), len;
      }
      len, room := WriteBucket(buf, base, len, room, b.text);
      i := i + 1;
    }
    rv := Rv(OK);
  }

  /**
   * `event.frame.depth` as the pyroscope build keeps it: 0 from calloc,
   * and afterwards only ever the index of a frame the walker handed over,
   * so it never leaves 0 .. MAX_STACK_DEPTH.
   */
  type Depth = d: int | 0 <= d <= MAX_STACK_DEPTH

  /**
   * trace_context_t, with the session's frame array that the handler fills
   * (`event_udata`) and the fields of the current frame (`event.frame`)
   * kept as the context's own: three STR_SIZE buffers, their lengths, the
   * line and the depth.
   */
  class TraceContext {
    const target: Target
    const func: array<char>
    const className: array<char>
    const file: array<char>
    var funcLen: nat
    var classLen: nat
    var fileLen: nat
    var lineno: int
    var depth: Depth
    const frames: array<TraceFrame>
    /** The objects the context owns. */
    ghost function Repr(): set<object> {
      {this, target, func, className, file, frames}
    }

    ghost predicate Valid() {
      && func.Length == STR_SIZE && className.Length == STR_SIZE && file.Length == STR_SIZE
      && func != className && func != file && className != file
      && frames.Length == MAX_STACK_DEPTH
    }

    /** `event.frame` as a value. */
    ghost function CurrentFrame(): TraceFrame
      reads this, func, className, file
    {
      TraceFrame(TraceLoc(func[..], className[..], file[..], funcLen, classLen, fileLen, lineno), depth)
    }

    /** What a walk reads and changes. */
    ghost function State(): (s: WalkState)
      reads this, func, className, file, frames, target
      ensures Valid() ==> WalkShaped(s)
    {
      WalkState(CurrentFrame(), frames[..], target.memFdAliveCheck)
    }

    /** A zeroed context with a zeroed frame array, as calloc leaves a session. */
    constructor ()
      ensures Valid() && fresh(Repr() - {this})
      ensures CurrentFrame() == ZeroFrame() && frames[..] == seq(MAX_STACK_DEPTH, _ => ZeroFrame())
      ensures target.pid == 0 && target.memFd == 0 && !target.memFdAliveCheck
      ensures target.Addresses() == AddressSet(0, 0, 0, 0)
    {
      target := new Target();
      func := new char[STR_SIZE](_ => NUL);
      className := new char[STR_SIZE](_ => NUL);
      file := new char[STR_SIZE](_ => NUL);
      funcLen, classLen, fileLen, lineno, depth := 0, 0, 0, 0, 0;
      frames := new TraceFrame[MAX_STACK_DEPTH](_ => ZeroFrame());
      new;
      assert func[..] == Zeroes(STR_SIZE) && className[..] == Zeroes(STR_SIZE) && file[..] == Zeroes(STR_SIZE);
    }

    /**
     * event_handler: a FRAME event copies the current frame into the frame
     * array at its depth; ERROR is answered with its own code; every other
     * event is acknowledged with OK.
     */
    method EventHandler(eventType: int) returns (r: Status)
      requires Valid()
      requires eventType == EVENT_FRAME ==> 0 <= depth < frames.Length
      modifies frames
      ensures r == HandlerStatus(eventType)
      ensures eventType == EVENT_FRAME ==> frames[..] == old(frames[..])[depth := CurrentFrame()]
      ensures eventType != EVENT_FRAME ==> frames[..] == old(frames[..])
    {
      if eventType == EVENT_FRAME {
        frames[depth] := TraceFrame(TraceLoc(func[..], className[..], file[..], funcLen, classLen, fileLen, lineno), depth);
      } else if eventType == EVENT_ERROR {
        return EVENT_ERROR as Status;
      }
      return OK;
    }

    /** sprint_zstring into one of the frame buffers. */
    method SprintZstring(direct: bool, mem: RemoteMemory, raddr: Addr, buf: array<char>) returns (rv: Rv, len: nat)
      requires buf.Length >= 1
      modifies buf, target`memFdAliveCheck
      ensures ZText(rv.code, buf[..], len, target.memFdAliveCheck) ==
              SprintZstringSpec(direct, mem, old(target.memFdAliveCheck), raddr, old(buf[..]))
    {
      buf[0] := NUL;
      len := 0;
      var hv;
      rv, hv := target.CopyRecord(direct, mem, raddr, mem.strings);
      if rv.IsFailure() {
        return;
      }
      var zs := hv.value;
      len := Min(zs.len, Max(1, buf.Length) - 1);
      var count;
      rv, count := target.CopyProcMem(direct, mem, PayloadAddr(raddr), len, |zs.val|);
      if rv.IsFailure() {
        return;
      }
      Memcpy(buf, zs.val, count);
      buf[len] := NUL;
    }

    /** sprint_zarray into `buf[off .. off + size]`, returning how far the cursor advanced. */
    method SprintZarray(direct: bool, mem: RemoteMemory, raddr: Addr, buf: array<char>, off: nat, size: nat,
                        render: (nat, nat) -> Rendered) returns (rv: Rv, len: nat)
      requires off + size <= buf.Length
      modifies buf, target`memFdAliveCheck
      ensures var z := SprintZarraySpec(direct, mem, old(target.memFdAliveCheck), raddr, old(buf[..]), off, size, render);
        rv.code == z.rv && buf[..] == z.buf && len == z.len && target.memFdAliveCheck == z.aliveCheck
    {
      len := 0;
      var h;
      rv, h := target.CopyRecord(direct, mem, raddr, mem.arrays);
      if rv.IsFailure() {
        return;
      }
      var count := BucketCount(h.value.nNumOfElements);
      var readable := if h.value.arData in mem.bucketTables then mem.bucketTables[h.value.arData] else 0;
      var copied;
      rv, copied := target.CopyProcMem(direct, mem, h.value.arData, count, readable);
      if rv.IsFailure() {
        return;
      }
      rv, len := RenderBuckets(buf, off, size, count, render, target.memFdAliveCheck);
      return;
    }


    /** The function-name branch of trace_stack's loop. */
    method DecodeFunctionNameInto(direct: bool, mem: RemoteMemory, zf: ZendFunction) returns (rv: Rv)
      requires Valid()
      modifies func, this`funcLen, target`memFdAliveCheck
      ensures Step(rv.code, State()) == DecodeFunctionName(direct, mem, old(State()), zf)
    {
      if zf.functionName != NULL {
        var len;
        rv, len := SprintZstring(direct, mem, zf.functionName, func);
        funcLen := len;
      } else {
        var n := Snprintf(func, 0, func.Length, MAIN);
        funcLen := n;
        rv := Rv(OK);
      }
    }

    /** The class branch of trace_stack's loop. */
    method DecodeClassNameInto(direct: bool, mem: RemoteMemory, zf: ZendFunction) returns (rv: Rv)
      requires Valid()
      modifies className, this`classLen, target`memFdAliveCheck
      ensures Step(rv.code, State()) == DecodeClassName(direct, mem, old(State()), zf)
    {
      if zf.scope != NULL {
        var ce;
        rv, ce := target.CopyRecord(direct, mem, zf.scope, mem.classes);
        if rv.IsFailure() {
          return;
        }
        var len;
        rv, len := SprintZstring(direct, mem, ce.value.name, className);
        classLen := len;
      } else {
        className[0] := NUL;
        classLen := 0;
        rv := Rv(OK);
      }
    }

    /** The file-and-line branch of trace_stack's loop. */
    method DecodeFileInto(direct: bool, mem: RemoteMemory, zf: ZendFunction) returns (rv: Rv)
      requires Valid()
      modifies file, this`fileLen, this`lineno, target`memFdAliveCheck
      ensures Step(rv.code, State()) == DecodeFile(direct, mem, old(State()), zf)
    {
      if zf.fnType == ZEND_USER_FUNCTION && zf.filename != NULL {
        var len;
        rv, len := SprintZstring(direct, mem, zf.filename, file);
        fileLen := len;
        if rv.IsFailure() {
          return;
        }
        lineno := Int32(zf.lineStart);
      } else {
        var n := Snprintf(file, 0, file.Length, INTERNAL);
        fileLen := n;
        lineno := -1;
        rv := Rv(OK);
      }
    }

    /** The three decoding steps into the current frame. */
    method DecodeLocInto(direct: bool, mem: RemoteMemory, zf: ZendFunction) returns (rv: Rv)
      requires Valid()
      modifies this, func, className, file, target`memFdAliveCheck
      ensures unchanged(this`depth)
      ensures Step(rv.code, State()) == DecodeLoc(direct, mem, old(State()), zf)
    {
      rv := DecodeFunctionNameInto(direct, mem, zf);
      if rv.IsFailure() {
        return;
      }
      rv := DecodeClassNameInto(direct, mem, zf);
      if rv.IsFailure() {
        return;
      }
      rv := DecodeFileInto(direct, mem, zf);
    }

    /** One turn of trace_stack's loop, numbering the frame `d`. */
    method WalkFrame(direct: bool, mem: RemoteMemory, remote: Addr, d: nat) returns (rv: Rv, next: Addr)
      requires Valid() && d < MAX_STACK_DEPTH
      modifies this, func, className, file, frames, target`memFdAliveCheck
      ensures FrameOut(rv.code, State(), next) == FrameStep(direct, mem, old(State()), remote, d)
    {
      hide ReadRecord, DecodeLoc;
      ghost var s := State();
      var ed, zf;
      rv, ed := target.CopyRecord(direct, mem, remote, mem.executeData);
      assert State() == s.(aliveCheck := target.memFdAliveCheck);
      if rv.IsFailure() {
        return rv, NULL;
      }
      rv, zf := target.CopyRecord(direct, mem, ed.value.func, mem.functions);
      ghost var s0 := State();
      assert s0 == s.(aliveCheck := target.memFdAliveCheck);
      if rv.IsFailure() {
        return rv, NULL;
      }
      rv := DecodeLocInto(direct, mem, zf.value);
      ghost var decoded := State();
      assert Step(rv.code, decoded) == DecodeLoc(direct, mem, s0, zf.value);
      if rv.IsFailure() {
        return rv, NULL;
      }
      depth := d;
      assert State() == decoded.(frame := decoded.frame.(depth := d));
      // The pyroscope handler acknowledges FRAME with OK, so the `try` around it never returns here.
      var hs := EventHandler(EVENT_FRAME);
      return Rv(hs), ed.value.prevExecuteData;
    }

    /** trace_stack: walk from `remote0`, returning the status and the number of frames handed over. */
    method TraceStack(direct: bool, mem: RemoteMemory, remote0: Addr) returns (rv: Rv, walked: nat)
      requires Valid()
      modifies this, func, className, file, frames, target`memFdAliveCheck
      ensures var e := TraceFrom(direct, mem, old(State()), remote0, 0);
        rv.code == e.rv && State() == e.s && walked == e.depth
    {
      hide FrameStep;
      walked := 0;
      var remote := remote0;
      while remote != NULL && walked != MAX_STACK_DEPTH
        invariant walked <= MAX_STACK_DEPTH
        invariant TraceFrom(direct, mem, State(), remote, walked) == TraceFrom(direct, mem, old(State()), remote0, 0)
        decreases MAX_STACK_DEPTH - walked
      {
        ghost var before := State();
        var next;
        rv, next := WalkFrame(direct, mem, remote, walked);
        TraceFromUnfold(direct, mem, before, remote, walked);
        if rv.IsFailure() {
          return;
        }
        remote := next;
        walked := walked + 1;
      }
      rv := Rv(OK);
    }

    /** copy_executor_globals. */
    method CopyExecutorGlobals(direct: bool, mem: RemoteMemory) returns (rv: Rv, eg: ExecutorGlobals)
      modifies target`memFdAliveCheck
      ensures var f := ReadRecord(direct, mem, old(target.memFdAliveCheck), target.executorGlobalsAddr, mem.executorGlobals);
        rv.code == f.rv && target.memFdAliveCheck == f.aliveCheck && (f.rv == OK ==> eg == f.value.value)
    {
      eg := ExecutorGlobals(NULL);
      var v;
      rv, v := target.CopyRecord(direct, mem, target.executorGlobalsAddr, mem.executorGlobals);
      if rv.IsFailure() {
        return;
      }
      eg := v.value;
    }

    /** do_trace. */
    method DoTrace(direct: bool, mem: RemoteMemory) returns (rv: Rv)
      requires Valid()
      modifies this, func, className, file, frames, target`memFdAliveCheck
      ensures TraceOut(rv.code, State()) == DoTraceSpec(direct, mem, old(State()), target.executorGlobalsAddr)
    {
      hide ReadRecord, TraceFrom;
      var eg :- CopyExecutorGlobals(direct, mem);
      // STACK_BEGIN is acknowledged with OK by the pyroscope handler.
      var begin := EventHandler(EVENT_STACK_BEGIN);
      var walked;
      rv, walked := TraceStack(direct, mem, eg.currentExecuteData);
      rv := Rv(OK | rv.code);
      if rv.code == OK {
        // So is STACK_END.
        var end := EventHandler(EVENT_STACK_END);
      }
      return Rv(OK);
    }
  }
}
