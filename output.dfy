/**
 * The text the pyroscope API hands back (pyroscope_api.c): an error status
 * turned into a message, and the sampled stack rendered outermost frame
 * first, one "file:line - Class::func;" entry per frame, into the caller's
 * buffer with a capacity check.
 */
module Output {
  import opened Defs
  import opened CFormat
  import opened Trace

  const UNKNOWN_ERROR: string := "Unknown error code: "
  const PID_PREFIX: string := "App with PID "
  const DEAD_SUFFIX: string := " is dead!"
  const BUF_FULL_PREFIX: string := "Buffer is full with PID "
  const GENERAL_ERROR: string := "General error!"

  /** The `%u` argument of the unknown-code message: the status with its ERR bit cleared. */
  function ReportedCode(rv: Status): Status {
    rv & !ERR
  }

  /**
   * The message formulate_error_msg picks for a failing status, in the
   * source's priority order: no ERR bit, then PID_DEAD, then BUF_FULL.
   * `%u` prints the status without its ERR bit (which is clear there anyway).
   */
  function ErrorMessage(rv: Status, pid: int): (m: string)
    requires rv != OK
    ensures |m| >= 1
  {
    if rv & ERR == 0 then UNKNOWN_ERROR + Decimal(ReportedCode(rv) as nat)
    else if HasFlag(rv, ERR_PID_DEAD) then PID_PREFIX + SignedDecimal(pid) + DEAD_SUFFIX
    else if HasFlag(rv, ERR_BUF_FULL) then BUF_FULL_PREFIX + SignedDecimal(pid)
    else GENERAL_ERROR
  }

  /** No message holds a NUL, so `%s` reads it back whole. */
  lemma ErrorMessageNulFree(rv: Status, pid: int)
    requires rv != OK
    ensures NUL !in ErrorMessage(rv, pid)
  {
    var p := SignedDecimal(pid);
    if rv & ERR == 0 {
      var d := Decimal(ReportedCode(rv) as nat);
      assert ErrorMessage(rv, pid) == UNKNOWN_ERROR + d;
    } else if HasFlag(rv, ERR_PID_DEAD) {
      assert ErrorMessage(rv, pid) == PID_PREFIX + p + DEAD_SUFFIX;
    } else if HasFlag(rv, ERR_BUF_FULL) {
      assert ErrorMessage(rv, pid) == BUF_FULL_PREFIX + p;
    } else {
      assert ErrorMessage(rv, pid) == GENERAL_ERROR;
    }
  }

  /** A status without the ERR bit is reported as unknown, and the number printed reads back as the status. */
  lemma UnknownCodeReadsBack(rv: Status, pid: int)
    requires rv != OK && rv & ERR == 0
    ensures var m := ErrorMessage(rv, pid);
      m[..|UNKNOWN_ERROR|] == UNKNOWN_ERROR && IsDigits(m[|UNKNOWN_ERROR|..]) &&
      DigitsValue(m[|UNKNOWN_ERROR|..]) == rv as nat
  {
    assert ReportedCode(rv) == rv;
    var d := Decimal(rv as nat);
    var m := ErrorMessage(rv, pid);
    assert m == UNKNOWN_ERROR + d;
    assert m[|UNKNOWN_ERROR|..] == d;
    DecimalRoundTrip(rv as nat);
  }

  /** With the ERR bit, PID_DEAD wins over BUF_FULL, and the pid printed reads back. */
  lemma DeadPidNamed(rv: Status, pid: int)
    requires rv & ERR != 0 && HasFlag(rv, ERR_PID_DEAD)
    ensures var m := ErrorMessage(rv, pid);
      m[..|PID_PREFIX|] == PID_PREFIX && m[|m| - |DEAD_SUFFIX|..] == DEAD_SUFFIX &&
      SignedValue(m[|PID_PREFIX|..|m| - |DEAD_SUFFIX|]) == pid
  {
    var m := ErrorMessage(rv, pid);
    assert m == PID_PREFIX + SignedDecimal(pid) + DEAD_SUFFIX;
    assert m[|PID_PREFIX|..|m| - |DEAD_SUFFIX|] == SignedDecimal(pid);
    SignedDecimalRoundTrip(pid);
  }

  /** BUF_FULL without PID_DEAD names the pid; with neither flag the message is the general one. */
  lemma BufferFullNamed(rv: Status, pid: int)
    requires rv & ERR != 0 && !HasFlag(rv, ERR_PID_DEAD)
    ensures var m := ErrorMessage(rv, pid);
      && (HasFlag(rv, ERR_BUF_FULL) ==>
            m[..|BUF_FULL_PREFIX|] == BUF_FULL_PREFIX && SignedValue(m[|BUF_FULL_PREFIX|..]) == pid)
      && (!HasFlag(rv, ERR_BUF_FULL) ==> m == GENERAL_ERROR)
  {
    var m := ErrorMessage(rv, pid);
    if HasFlag(rv, ERR_BUF_FULL) {
      assert m == BUF_FULL_PREFIX + SignedDecimal(pid);
      assert m[|BUF_FULL_PREFIX|..] == SignedDecimal(pid);
      SignedDecimalRoundTrip(pid);
    }
  }

  /** A result and the error buffer it leaves. */
  datatype Reported = Reported(r: int, err: seq<char>)

  /**
   * What formulate_error_msg returns and leaves: 0 and the buffer as it
   * was for OK; otherwise the message written snprintf-style into the
   * buffer and minus its length, cut to errLen.
   */
  function ErrorMsgSpec(rv: Status, pid: int, err: seq<char>, errLen: nat): (e: Reported)
    requires errLen <= |err|
    ensures rv == OK ==> e == Reported(0, err)
    ensures -(errLen as int) <= e.r <= 0 && |e.err| == |err|
    ensures rv != OK && errLen > 0 ==> e.r < 0
  {
    if rv == OK then Reported(0, err)
    else
      var m := ErrorMessage(rv, pid);
      Reported(-Min(|m|, errLen), SnprintfWrite(err, 0, errLen, m))
  }

  /** formulate_error_msg. */
  method FormulateErrorMsg(rv: Status, ctx: TraceContext, err: array<char>, errLen: nat) returns (r: int)
    requires errLen <= err.Length
    modifies err
    ensures Reported(r, err[..]) == ErrorMsgSpec(rv, ctx.target.pid, old(err[..]), errLen)
  {
    if rv == OK {
      return 0;
    }
    var m := ErrorMessage(rv, ctx.target.pid);
    var n := Snprintf(err, 0, errLen, m);
    r := if n < errLen then -(n as int) else -(errLen as int);
  }

  /**
   * The result tells failure from success only when there is room for the
   * message: it is 0 exactly for OK or an empty error buffer, never
   * positive, and never beyond the buffer; for OK and for an empty buffer
   * nothing is written; otherwise what the caller reads back is the
   * message cut to errLen - 1 bytes.
   */
  lemma ErrorResultSignals(rv: Status, pid: int, err: seq<char>, errLen: nat)
    requires errLen <= |err|
    ensures var e := ErrorMsgSpec(rv, pid, err, errLen);
      && (e.r == 0 <==> rv == OK || errLen == 0)
      && -(errLen as int) <= e.r <= 0
      && (rv == OK || errLen == 0 ==> e.err == err)
    ensures rv != OK && errLen > 0 ==> var m := ErrorMessage(rv, pid);
      CStrAt(ErrorMsgSpec(rv, pid, err, errLen).err, 0) == m[..Min(|m|, errLen - 1)]
  {
    if rv != OK && errLen > 0 {
      ErrorMessageNulFree(rv, pid);
      SnprintfReadBack(err, 0, errLen, ErrorMessage(rv, pid));
    }
  }


  /**
   * Where the file name starts once the application root is stripped: one
   * past the root (skipping the separator) when the root is non-empty and
   * the file's first bytes are the root, else at 0. A root longer than the
   * file buffer never matches.
   */
  function RootSkip(file: seq<char>, root: string): (k: nat)
    ensures k == 0 || k == |root| + 1
  {
    if root != [] && |root| <= |file| && file[..|root|] == root then |root| + 1 else 0
  }

  /** The file name as `%s` reads it from just past the stripped root. */
  function FilePart(loc: TraceLoc, root: string): (f: string)
    ensures NUL !in f
  {
    CStrAt(loc.file, RootSkip(loc.file, root))
  }

  /**
   * What stripping the root leaves of a NUL-free root: when the file name
   * is the root, one more byte (the separator) and more, the rest after
   * that byte is printed; when the file name does not start with the root,
   * or the root is empty, the whole file name is printed. (A file name
   * equal to the root skips past its own NUL.)
   */
  lemma FilePartStripsRoot(loc: TraceLoc, root: string)
    ensures var text := CStrAt(loc.file, 0);
      && (root != [] && |root| < |text| && text[..|root|] == root ==> FilePart(loc, root) == text[|root| + 1..])
      && (root == [] ==> FilePart(loc, root) == text)
      && (NUL !in root && !(|root| <= |text| && text[..|root|] == root) ==> FilePart(loc, root) == text)
  {
    var file := loc.file;
    var text := CStrAt(file, 0);
    CStrAtCopies(file, 0);
    if root != [] && |root| < |text| && text[..|root|] == root {
      assert file[..|root|] == root;
      CStrAtSuffix(file, 0, |root| + 1);
    }
  }

  /** ":%d" of the line, or nothing when the line is -1. */
  function LinePart(lineno: int): (l: string)
    ensures NUL !in l
  {
    if lineno == -1 then "" else ":" + SignedDecimal(lineno)
  }

  /** "%s%s%s;" of class, "::" when class_len is non-zero, and function. */
  function CallPart(loc: TraceLoc): (c: string)
    ensures NUL !in c && |c| >= 1 && c[|c| - 1] == ';'
  {
    CStrAt(loc.className, 0) + (if loc.classLen != 0 then "::" else "") + CStrAt(loc.func, 0) + ";"
  }

  /**
   * The call part starts with the class name as `%s` reads it; "::" follows
   * it exactly when class_len is non-zero, and the function name and ';'
   * end it.
   */
  lemma CallPartSeparator(loc: TraceLoc)
    ensures var cls := CStrAt(loc.className, 0);
      var fn := CStrAt(loc.func, 0);
      var c := CallPart(loc);
      && c[..|cls|] == cls && c[|c| - |fn| - 1..] == fn + ";"
      && (loc.classLen != 0 <==> |c| == |cls| + 2 + |fn| + 1)
      && (loc.classLen != 0 ==> c[|cls|..|cls| + 2] == "::")
  {
    var cls := CStrAt(loc.className, 0);
    var sep := if loc.classLen != 0 then "::" else "";
    var tail := CStrAt(loc.func, 0) + ";";
    assert CallPart(loc) == cls + (sep + tail);
  }

  /** The text of one frame: "%s - %s%s%s;" without a line, "%s:%d - %s%s%s;" with one. */
  function FrameText(loc: TraceLoc, root: string): (t: string)
    ensures NUL !in t && |t| >= 1
  {
    FilePart(loc, root) + LinePart(loc.lineno) + " - " + CallPart(loc)
  }

  /**
   * A frame's text: it begins with the file name read from just past the
   * root and ends with ';'; what follows the file is " - " directly when
   * lineno is -1, and otherwise ':' and digits that read back as the line.
   */
  lemma FrameTextShape(loc: TraceLoc, root: string)
    ensures var t := FrameText(loc, root);
      var f := |FilePart(loc, root)|;
      var c := |CallPart(loc)|;
      && f + 3 + c <= |t| && t[..f] == FilePart(loc, root) && t[|t| - 1] == ';'
      && t[|t| - c - 3..] == " - " + CallPart(loc)
      && (loc.lineno == -1 <==> |t| == f + 3 + c)
      && (loc.lineno != -1 ==> t[f] == ':' && t[f + 1..|t| - c - 3] == SignedDecimal(loc.lineno))
      && (loc.lineno != -1 ==> SignedValue(t[f + 1..|t| - c - 3]) == loc.lineno)
  {
    var t := FrameText(loc, root);
    var file := FilePart(loc, root);
    var call := CallPart(loc);
    var line := LinePart(loc.lineno);
    assert t == file + (line + (" - " + call));
    assert t[..|file|] == file;
    assert t[|file|..] == line + (" - " + call);
    assert t[|t| - |call| - 3..] == " - " + call;
    if loc.lineno != -1 {
      var d := SignedDecimal(loc.lineno);
      assert t[|file| + 1..|t| - |call| - 3] == d;
      SignedDecimalRoundTrip(loc.lineno);
    }
  }

  /** The texts of frames n - 1 down to 0, in the order formulate_output emits them. */
  function FrameTexts(frames: seq<TraceFrame>, n: nat, root: string): (ts: seq<string>)
    requires n <= |frames|
    ensures |ts| == n
  {
    seq(n, i requires 0 <= i < n => FrameText(frames[n - 1 - i].loc, root))
  }

  /** No text of the rendering is empty or holds a NUL. */
  lemma FrameTextsNulFree(frames: seq<TraceFrame>, n: nat, root: string)
    requires n <= |frames|
    ensures forall i :: 0 <= i < n ==> NUL !in FrameTexts(frames, n, root)[i] && FrameTexts(frames, n, root)[i] != []
  {
    forall i | 0 <= i < n
      ensures NUL !in FrameTexts(frames, n, root)[i] && FrameTexts(frames, n, root)[i] != []
    {
      assert FrameTexts(frames, n, root)[i] == FrameText(frames[n - 1 - i].loc, root);
    }
  }

  /** The first `k` texts, concatenated: what `k` snprintf calls at a moving cursor write. */
  function Joined(ts: seq<string>, k: nat): (s: string)
    requires k <= |ts|
    ensures k > 0 ==> |s| >= |ts[k - 1]|
  {
    if k == 0 then [] else Joined(ts, k - 1) + ts[k - 1]
  }

  /** Texts that are `x` followed by the texts of `below` join as `x` followed by their join. */
  lemma {:induction false} JoinedCons(top: seq<string>, below: seq<string>, k: nat)
    requires k < |top| && k <= |below| && forall i :: 0 < i <= k ==> top[i] == below[i - 1]
    ensures Joined(top, k + 1) == top[0] + Joined(below, k)
    decreases k
  {
    if k > 0 {
      JoinedCons(top, below, k - 1);
      assert Joined(top, k + 1) == Joined(top, k) + top[k];
      assert Joined(below, k) == Joined(below, k - 1) + below[k - 1];
    } else {
      assert Joined(top, 1) == Joined(top, 0) + top[0];
    }
  }

  /**
   * The output of frames n down to 0 is frame n's text followed by the
   * output of frames n - 1 down to 0: each frame below the depth is
   * rendered once, highest index first.
   */
  lemma RenderingPeelsTop(frames: seq<TraceFrame>, n: nat, root: string)
    requires n < |frames|
    ensures Joined(FrameTexts(frames, n + 1, root), n + 1) ==
      FrameText(frames[n].loc, root) + Joined(FrameTexts(frames, n, root), n)
  {
    var top := FrameTexts(frames, n + 1, root);
    var below := FrameTexts(frames, n, root);
    assert forall i :: 0 < i <= n ==> top[i] == below[i - 1];
    JoinedCons(top, below, n);
  }

  /** NUL-free texts join into a NUL-free rendering. */
  lemma {:induction false} JoinedNulFree(ts: seq<string>, k: nat)
    requires k <= |ts| && forall i :: 0 <= i < k ==> NUL !in ts[i]
    ensures NUL !in Joined(ts, k)
  {
    if k > 0 {
      JoinedNulFree(ts, k - 1);
    }
  }

  /** A longer prefix of the texts never renders shorter. */
  lemma {:induction false} JoinedGrows(ts: seq<string>, j: nat, k: nat)
    requires j <= k <= |ts|
    ensures |Joined(ts, j)| <= |Joined(ts, k)|
    decreases k
  {
    if j < k {
      JoinedGrows(ts, j, k - 1);
    }
  }

  /** How a capacity check ends: every text written, or the first cumulative total it refuses. */
  datatype Scanned = Fits(total: nat) | Overflow(total: nat, emitted: nat)

  /** "Not enough space! W > L". */
  function NoSpaceMessage(written: int, dataLen: int): (m: string)
    ensures NUL !in m
  {
    "Not enough space! " + SignedDecimal(written) + " > " + SignedDecimal(dataLen)
  }

  /** A result and the data and error buffers it leaves. */
  datatype Outcome = Outcome(r: int, data: seq<char>, err: seq<char>)

  // formulate_output as the source writes it

  /**
   * formulate_output's frame loop as the source writes it, from text `i`
   * with `written` bytes counted: each snprintf starts at the cursor and is
   * given the whole of data_len as its size, and the check
   * `written > data_len` runs after each frame. `mem` is the caller's
   * buffer and what the array holds behind it (bytes landing past the
   * array are not kept); `reach` is one past the last byte the calls wrote.
   */
  datatype Reach = Reach(result: Scanned, mem: seq<char>, reach: nat)

  function AsWrittenScan(ts: seq<string>, i: nat, written: nat, dataLen: nat, mem: seq<char>, reach: nat): (z: Reach)
    requires i <= |ts|
    ensures z.reach >= reach && |z.mem| == |mem|
    ensures z.result.Overflow? ==> i < z.result.emitted <= |ts|
    decreases |ts| - i
  {
    if i == |ts| then Reach(Fits(written), mem, reach)
    else
      var b := SnprintfBytes(ts[i], dataLen);
      var end := if b == [] then reach else Max(reach, written + |b|);
      var w := written + |ts[i]|;
      var mem' := Put(mem, written, b);
      if w > dataLen then Reach(Overflow(w, i + 1), mem', end)
      else AsWrittenScan(ts, i + 1, w, dataLen, mem', end)
  }

  /** One frame's snprintf as the source calls it: at the cursor, with the whole of dataLen as its size. */
  method EmitText(data: array<char>, dataLen: nat, written: nat, t: string) returns (written': nat)
    modifies data
    ensures written' == written + |t| && data[..] == Put(old(data[..]), written, SnprintfBytes(t, dataLen))
  {
    var k := SnprintfAt(data, written, dataLen, t);
    written' := written + k;
  }

  /**
   * The frame loop of formulate_output: the texts of frames n - 1 down to 0
   * (FrameTexts) are emitted one after the other, until the count passes
   * dataLen; the loop is AsWrittenScan from the first text.
   */
  method EmitFrames(frames: array<TraceFrame>, n: nat, root: string, data: array<char>, dataLen: nat)
    returns (s: Scanned, ghost reach: nat)
    requires n <= frames.Length
    modifies data
    ensures AsWrittenScan(FrameTexts(frames[..], n, root), 0, 0, dataLen, old(data[..]), 0) == Reach(s, data[..], reach)
  {
    var ts := FrameTexts(frames[..], n, root);
    hide FrameText, FrameTexts;
    ghost var z := AsWrittenScan(ts, 0, 0, dataLen, data[..], 0);
    var written: nat := 0;
    reach := 0;
    var i: nat := 0;
    while i < n
      invariant i <= n
      invariant AsWrittenScan(ts, i, written, dataLen, data[..], reach) == z
    {
      var t := ts[i];
      ghost var b := SnprintfBytes(t, dataLen);
      reach := if b == [] then reach else Max(reach, written + |b|);
      written := EmitText(data, dataLen, written, t);
      i := i + 1;
      if written > dataLen {
        return Overflow(written, i), reach;
      }
    }
    return Fits(written), reach;
  }

  /**
   * formulate_output: the frames below `depth` are written highest index
   * first, as AsWrittenScan does; an accepted rendering returns its
   * length; a refused one keeps what was written, puts the message in the
   * error buffer and returns minus the message's full length.
   */
  function FormulateOutputSpec(frames: seq<TraceFrame>, depth: int, root: string,
                               data: seq<char>, dataLen: nat, err: seq<char>, errLen: nat): (o: Outcome)
    requires depth <= |frames| && errLen <= |err|
    ensures |o.data| == |data| && |o.err| == |err|
  {
    var ts := FrameTexts(frames, Max(depth, 0), root);
    var z := AsWrittenScan(ts, 0, 0, dataLen, data, 0);
    if z.result.Fits? then Outcome(z.result.total, z.mem, err)
    else
      var m := NoSpaceMessage(z.result.total, dataLen);
      Outcome(-|m|, z.mem, SnprintfWrite(err, 0, errLen, m))
  }

  /** formulate_output over the context's frame array and current depth. */
  method FormulateOutput(ctx: TraceContext, root: string, data: array<char>, dataLen: nat, err: array<char>, errLen: nat)
    returns (r: int)
    requires ctx.Valid()
    requires errLen <= err.Length && data != err
    modifies data, err
    ensures Outcome(r, data[..], err[..]) ==
      FormulateOutputSpec(ctx.frames[..], ctx.depth, root, old(data[..]), dataLen, old(err[..]), errLen)
  {
    var n: nat := Max(ctx.depth, 0);
    var s, reach := EmitFrames(ctx.frames, n, root, data, dataLen);
    if s.Overflow? {
      var m := NoSpaceMessage(s.total, dataLen);
      var _ := Snprintf(err, 0, errLen, m);
      return -|m|;
    }
    return s.total;
  }

  /** The buffer after `s` has been written from its start snprintf-style; untouched while nothing was written. */
  function Written(buf: seq<char>, dataLen: nat, s: string): (r: seq<char>)
    requires dataLen <= |buf|
    ensures |r| == |buf|
  {
    if s == [] then buf else SnprintfWrite(buf, 0, dataLen, s)
  }

  /** Writing `t` where `a` ended, with the room that is left, is writing `a + t` at once. */
  lemma SnprintfAppend(buf: seq<char>, dataLen: nat, a: string, t: string)
    requires dataLen <= |buf| && (a == [] || |a| < dataLen) && t != []
    ensures SnprintfWrite(Written(buf, dataLen, a), |a|, dataLen - |a|, t) == Written(buf, dataLen, a + t)
  {
    if a == [] {
      assert a + t == t;
    } else {
      var w := Written(buf, dataLen, a);
      var l := SnprintfWrite(w, |a|, dataLen - |a|, t);
      var r := SnprintfWrite(buf, 0, dataLen, a + t);
      var n := Min(|t|, dataLen - |a| - 1);
      assert Min(|a + t|, dataLen - 1) == |a| + n;
      forall j | 0 <= j < |buf|
        ensures l[j] == r[j]
      {
        if j < |a| {
          assert l[j] == w[j] == a[j] == (a + t)[j];
        } else if j < |a| + n {
          assert l[j] == t[j - |a|] == (a + t)[j];
        } else if j > |a| + n && j >= dataLen {
          assert l[j] == w[j] == buf[j];
        } else if j > |a| + n {
          assert l[j] == w[j] == buf[j];
        }
      }
    }
  }

  /** Below the capacity an as-written call stores the text and its NUL where the rendering ended, as writing it all at once does. */
  lemma AppendAsWritten(buf: seq<char>, dataLen: nat, a: string, t: string)
    requires dataLen <= |buf| && (a == [] || |a| < dataLen) && t != [] && |a| + |t| < dataLen
    ensures Put(Written(buf, dataLen, a), |a|, SnprintfBytes(t, dataLen)) == Written(buf, dataLen, a + t)
  {
    SnprintfAppend(buf, dataLen, a, t);
    SnprintfWriteIsPut(Written(buf, dataLen, a), |a|, dataLen - |a|, t);
    assert SnprintfBytes(t, dataLen - |a|) == SnprintfBytes(t, dataLen);
  }

  /** The cursor's reach after k texts that fitted: one past the NUL of the last, or 0. */
  function FittedReach(ts: seq<string>, k: nat): nat
    requires k <= |ts|
  {
    if k == 0 then 0 else |Joined(ts, k)| + 1
  }

  /** The buffer after the as-written call for text k, over the rendering of the texts before it. */
  function AsWrittenCall(buf: seq<char>, ts: seq<string>, k: nat, dataLen: nat): seq<char>
    requires k < |ts| && dataLen <= |buf|
  {
    Put(Written(buf, dataLen, Joined(ts, k)), |Joined(ts, k)|, SnprintfBytes(ts[k], dataLen))
  }

  /**
   * What the as-written loop ends with, over texts whose prefixes before
   * the start fitted below dataLen: it accepts exactly the renderings of at
   * most dataLen bytes, with their full length; below dataLen the buffer is
   * the rendering and its NUL, and the writes stay inside it; at exactly
   * dataLen the buffer is the last call's over the rendering before it,
   * and the writes pass dataLen exactly when there was more than one text;
   * a refusal comes at the first prefix longer than dataLen, and its writes
   * pass dataLen exactly when that is not the first text.
   */
  ghost predicate AsWrittenEnds(ts: seq<string>, dataLen: nat, buf: seq<char>, z: Reach)
    requires dataLen <= |buf|
  {
    var all := Joined(ts, |ts|);
    && (z.result.Fits? <==> |all| <= dataLen)
    && (z.result.Fits? ==> z.result.total == |all|)
    && (|all| < dataLen ==> z.mem == Written(buf, dataLen, all) && z.reach == FittedReach(ts, |ts|))
    && (|all| == dataLen && ts != [] ==>
          |Joined(ts, |ts| - 1)| < dataLen && z.mem == AsWrittenCall(buf, ts, |ts| - 1, dataLen) &&
          z.reach == if |ts| == 1 then dataLen else dataLen + 1)
    && (z.result.Overflow? ==>
          var e := z.result.emitted;
          && 0 < e <= |ts| && z.result.total == |Joined(ts, e)| > dataLen && |Joined(ts, e - 1)| <= dataLen
          && (|Joined(ts, e - 1)| < dataLen ==> z.mem == AsWrittenCall(buf, ts, e - 1, dataLen))
          && (z.reach > dataLen <==> e > 1))
  }

  /** The as-written loop from text i, the texts before it having fitted below dataLen, ends as AsWrittenEnds says. */
  lemma {:induction false} AsWrittenCounts(ts: seq<string>, i: nat, dataLen: nat, buf: seq<char>)
    requires i <= |ts| && dataLen <= |buf| && (i > 0 ==> |Joined(ts, i)| < dataLen)
    requires forall k :: 0 <= k < |ts| ==> ts[k] != []
    ensures AsWrittenEnds(ts, dataLen, buf,
      AsWrittenScan(ts, i, |Joined(ts, i)|, dataLen, Written(buf, dataLen, Joined(ts, i)), FittedReach(ts, i)))
    decreases |ts| - i
  {
    hide AsWrittenScan, Put;
    var c := |Joined(ts, i)|;
    var mem := Written(buf, dataLen, Joined(ts, i));
    AsWrittenOneStep(ts, i, c, dataLen, mem, FittedReach(ts, i));
    if i == |ts| {
      AsWrittenAllFitted(ts, dataLen, buf);
    } else {
      var a := Joined(ts, i);
      var t := ts[i];
      if c + |t| < dataLen {
        var b := SnprintfBytes(t, dataLen);
        assert Joined(ts, i + 1) == a + t;
        AppendAsWritten(buf, dataLen, a, t);
        assert Max(FittedReach(ts, i), c + |b|) == FittedReach(ts, i + 1);
        hide AsWrittenEnds, Written, FittedReach, SnprintfBytes;
        AsWrittenCounts(ts, i + 1, dataLen, buf);
      } else if c + |t| == dataLen {
        AsWrittenFillsUp(ts, i, dataLen, buf);
      } else {
        AsWrittenRefuses(ts, i, dataLen, buf);
      }
    }
  }

  /** Every text written below dataLen: the loop accepts with the rendering in the buffer. */
  lemma AsWrittenAllFitted(ts: seq<string>, dataLen: nat, buf: seq<char>)
    requires dataLen <= |buf| && (|ts| > 0 ==> |Joined(ts, |ts|)| < dataLen)
    ensures var n := |ts|; var all := Joined(ts, n);
      AsWrittenEnds(ts, dataLen, buf, Reach(Fits(|all|), Written(buf, dataLen, all), FittedReach(ts, n)))
  {
    assert |ts| == 0 ==> Joined(ts, 0) == [];
  }

  /** A text that brings the count to exactly dataLen: the last one is accepted, a further one refused. */
  lemma AsWrittenFillsUp(ts: seq<string>, i: nat, dataLen: nat, buf: seq<char>)
    requires i < |ts| && dataLen <= |buf| && (i > 0 ==> |Joined(ts, i)| < dataLen)
    requires forall k :: 0 <= k < |ts| ==> ts[k] != []
    requires |Joined(ts, i)| + |ts[i]| == dataLen
    ensures AsWrittenEnds(ts, dataLen, buf,
      AsWrittenScan(ts, i, |Joined(ts, i)|, dataLen, Written(buf, dataLen, Joined(ts, i)), FittedReach(ts, i)))
  {
    hide AsWrittenScan, Put, AsWrittenEnds;
    var a := Joined(ts, i);
    var c := |a|;
    var mem := Written(buf, dataLen, a);
    var b := SnprintfBytes(ts[i], dataLen);
    var end := Max(FittedReach(ts, i), c + |b|);
    AsWrittenOneStep(ts, i, c, dataLen, mem, FittedReach(ts, i));
    assert Joined(ts, i + 1) == a + ts[i];
    if i > 0 {
      assert c >= |ts[i - 1]| > 0;
    }
    assert end == if i == 0 then dataLen else dataLen + 1;
    if i + 1 == |ts| {
      AsWrittenFillsLast(ts, i, dataLen, buf, Put(mem, c, b), end);
    } else {
      AsWrittenFillsBeforeMore(ts, i, dataLen, buf, Put(mem, c, b), end);
    }
  }

  /** The text that fills the buffer exactly is the last: the loop accepts with dataLen. */
  lemma AsWrittenFillsLast(ts: seq<string>, i: nat, dataLen: nat, buf: seq<char>, mem: seq<char>, end: nat)
    requires i + 1 == |ts| && dataLen <= |buf| && |Joined(ts, i)| < dataLen
    requires |Joined(ts, i + 1)| == dataLen
    requires mem == AsWrittenCall(buf, ts, i, dataLen) && end == if i == 0 then dataLen else dataLen + 1
    ensures AsWrittenEnds(ts, dataLen, buf, AsWrittenScan(ts, i + 1, dataLen, dataLen, mem, end))
  {
    hide AsWrittenScan, Put, AsWrittenCall;
    AsWrittenOneStep(ts, i + 1, dataLen, dataLen, mem, end);
  }

  /** The text that fills the buffer exactly has another after it: the loop refuses at that next one. */
  lemma AsWrittenFillsBeforeMore(ts: seq<string>, i: nat, dataLen: nat, buf: seq<char>, mem: seq<char>, end: nat)
    requires i + 1 < |ts| && dataLen <= |buf| && end >= dataLen
    requires forall k :: 0 <= k < |ts| ==> ts[k] != []
    requires |Joined(ts, i + 1)| == dataLen
    ensures AsWrittenEnds(ts, dataLen, buf, AsWrittenScan(ts, i + 1, dataLen, dataLen, mem, end))
  {
    hide AsWrittenScan, Put, AsWrittenCall, Written, FittedReach;
    var t2 := ts[i + 1];
    var b2 := SnprintfBytes(t2, dataLen);
    assert |b2| > 0;
    AsWrittenOneStep(ts, i + 1, dataLen, dataLen, mem, end);
    var z := Reach(Overflow(dataLen + |t2|, i + 2), Put(mem, dataLen, b2), Max(end, dataLen + |b2|));
    assert AsWrittenScan(ts, i + 1, dataLen, dataLen, mem, end) == z;
    assert Joined(ts, i + 2) == Joined(ts, i + 1) + t2;
    JoinedGrows(ts, i + 2, |ts|);
    hide Joined;
    assert z.reach > dataLen;
  }

  /** A text that takes the count past dataLen is refused where it stands. */
  lemma AsWrittenRefuses(ts: seq<string>, i: nat, dataLen: nat, buf: seq<char>)
    requires i < |ts| && dataLen <= |buf| && (i > 0 ==> |Joined(ts, i)| < dataLen)
    requires forall k :: 0 <= k < |ts| ==> ts[k] != []
    requires |Joined(ts, i)| + |ts[i]| > dataLen
    ensures AsWrittenEnds(ts, dataLen, buf,
      AsWrittenScan(ts, i, |Joined(ts, i)|, dataLen, Written(buf, dataLen, Joined(ts, i)), FittedReach(ts, i)))
  {
    hide AsWrittenScan, Put;
    var a := Joined(ts, i);
    var c := |a|;
    AsWrittenOneStep(ts, i, c, dataLen, Written(buf, dataLen, a), FittedReach(ts, i));
    assert Joined(ts, i + 1) == a + ts[i];
    JoinedGrows(ts, i + 1, |ts|);
    if i > 0 {
      assert c >= |ts[i - 1]| > 0;
    }
  }

  /** One turn of the as-written loop, or its end. */
  lemma AsWrittenOneStep(ts: seq<string>, i: nat, written: nat, dataLen: nat, mem: seq<char>, reach: nat)
    requires i <= |ts|
    ensures i == |ts| ==> AsWrittenScan(ts, i, written, dataLen, mem, reach) == Reach(Fits(written), mem, reach)
    ensures i < |ts| ==>
      var b := SnprintfBytes(ts[i], dataLen);
      var end := if b == [] then reach else Max(reach, written + |b|);
      var w := written + |ts[i]|;
      AsWrittenScan(ts, i, written, dataLen, mem, reach) ==
        if w > dataLen then Reach(Overflow(w, i + 1), Put(mem, written, b), end)
        else AsWrittenScan(ts, i + 1, w, dataLen, Put(mem, written, b), end)
  {
  }

  /**
   * formulate_output as written, for any frames: a rendering of at most
   * dataLen bytes is accepted with its full length and leaves the error
   * buffer alone; a longer one is refused at the first frame whose
   * cumulative count passes dataLen, returns minus the full length of
   * "Not enough space! W > L" for that count and leaves the message, cut to
   * errLen - 1 bytes, in the error buffer.
   */
  lemma FormulateOutputResult(frames: seq<TraceFrame>, depth: int, root: string,
                              data: seq<char>, dataLen: nat, err: seq<char>, errLen: nat)
    requires depth <= |frames| && dataLen <= |data| && errLen <= |err|
    ensures var n := Max(depth, 0);
      var ts := FrameTexts(frames, n, root);
      var all := Joined(ts, n);
      var o := FormulateOutputSpec(frames, depth, root, data, dataLen, err, errLen);
      var z := AsWrittenScan(ts, 0, 0, dataLen, data, 0);
      && (|all| <= dataLen ==> o.r == |all| && o.err == err)
      && (|all| > dataLen ==> z.result.Overflow?)
      && (z.result.Overflow? ==>
            var e := z.result.emitted;
            var m := NoSpaceMessage(|Joined(ts, e)|, dataLen);
            && 0 < e <= n && |Joined(ts, e)| > dataLen && |Joined(ts, e - 1)| <= dataLen
            && o.r == -|m| && (errLen > 0 ==> CStrAt(o.err, 0) == m[..Min(|m|, errLen - 1)]))
  {
    var n := Max(depth, 0);
    var ts := FrameTexts(frames, n, root);
    FrameTextsNulFree(frames, n, root);
    hide FrameText, FrameTexts;
    assert Joined(ts, 0) == [];
    AsWrittenCounts(ts, 0, dataLen, data);
    var z := AsWrittenScan(ts, 0, 0, dataLen, data, 0);
    if z.result.Overflow? && errLen > 0 {
      SnprintfReadBack(err, 0, errLen, NoSpaceMessage(z.result.total, dataLen));
    }
  }

  /**
   * A rendering shorter than dataLen comes out of the source's formatter
   * exactly as out of the corrected one: same result, same data buffer,
   * error buffer untouched.
   */
  lemma AsWrittenBelowCapacity(frames: seq<TraceFrame>, depth: int, root: string,
                               data: seq<char>, dataLen: nat, err: seq<char>, errLen: nat)
    requires depth <= |frames| && dataLen <= |data| && errLen <= |err|
    requires |Joined(FrameTexts(frames, Max(depth, 0), root), Max(depth, 0))| < dataLen
    ensures FormulateOutputSpec(frames, depth, root, data, dataLen, err, errLen) ==
            FormulateOutputCorrected(frames, depth, root, data, dataLen, err, errLen)
  {
    var n := Max(depth, 0);
    var ts := FrameTexts(frames, n, root);
    FrameTextsNulFree(frames, n, root);
    assert Joined(ts, 0) == [];
    AsWrittenCounts(ts, 0, dataLen, data);
    ScanCounts(ts, 0, dataLen);
    var s := CorrectedScan(ts, 0, 0, dataLen);
    if s.Overflow? {
      JoinedGrows(ts, s.emitted, n);
    }
  }

  /**
   * A rendering of exactly dataLen bytes is accepted as written, with
   * result dataLen: a single text loses its last byte to the NUL, while
   * with more texts the whole rendering is in the buffer and the NUL goes
   * to buf[dataLen], one byte past it; nothing further on changes.
   */
  lemma AsWrittenFullBuffer(ts: seq<string>, dataLen: nat, buf: seq<char>)
    requires dataLen <= |buf| && ts != [] && forall k :: 0 <= k < |ts| ==> ts[k] != []
    requires |Joined(ts, |ts|)| == dataLen
    ensures var z := AsWrittenScan(ts, 0, 0, dataLen, buf, 0);
      var all := Joined(ts, |ts|);
      && z.result == Fits(dataLen) && dataLen > 0
      && (|ts| == 1 ==> z.mem == SnprintfWrite(buf, 0, dataLen, all))
      && (|ts| > 1 ==> z.mem[..dataLen] == all && (dataLen < |buf| ==> z.mem[dataLen] == NUL))
      && (forall j :: dataLen < j < |buf| ==> z.mem[j] == buf[j])
  {
    var n := |ts|;
    assert Joined(ts, 0) == [];
    AsWrittenCounts(ts, 0, dataLen, buf);
    var z := AsWrittenScan(ts, 0, 0, dataLen, buf, 0);
    assert z.mem == AsWrittenCall(buf, ts, n - 1, dataLen);
    if n == 1 {
      FullCallSingle(buf, ts, dataLen);
    } else {
      FullCallMany(buf, ts, dataLen);
    }
  }

  /** The one text of an exactly full rendering is written snprintf-style, losing its last byte to the NUL. */
  lemma FullCallSingle(buf: seq<char>, ts: seq<string>, dataLen: nat)
    requires dataLen <= |buf| && |ts| == 1 && |ts[0]| == dataLen
    ensures AsWrittenCall(buf, ts, 0, dataLen) == SnprintfWrite(buf, 0, dataLen, Joined(ts, 1))
  {
    assert Joined(ts, 0) == [] && Joined(ts, 1) == ts[0];
    SnprintfWriteIsPut(buf, 0, dataLen, ts[0]);
  }

  /** The last of several texts that fill the buffer exactly lands whole, and its NUL lands at dataLen. */
  lemma FullCallMany(buf: seq<char>, ts: seq<string>, dataLen: nat)
    requires dataLen <= |buf| && |ts| > 1 && forall k :: 0 <= k < |ts| ==> ts[k] != []
    requires |Joined(ts, |ts|)| == dataLen
    ensures var m := AsWrittenCall(buf, ts, |ts| - 1, dataLen);
      && m[..dataLen] == Joined(ts, |ts|)
      && (dataLen < |buf| ==> m[dataLen] == NUL)
      && (forall j :: dataLen < j < |buf| ==> m[j] == buf[j])
  {
    var n := |ts|;
    var all := Joined(ts, n);
    var a := Joined(ts, n - 1);
    var t := ts[n - 1];
    assert all == a + t;
    assert |a| >= |ts[n - 2]| > 0;
    assert SnprintfBytes(t, dataLen) == t + [NUL];
    var w := Written(buf, dataLen, a);
    var m := AsWrittenCall(buf, ts, n - 1, dataLen);
    assert m == Put(w, |a|, t + [NUL]);
    hide AsWrittenCall, Joined;
    assert forall j :: 0 <= j < |a| ==> w[j] == a[j];
    forall j | 0 <= j < dataLen
      ensures m[j] == all[j]
    {
      if j < |a| {
        assert m[j] == w[j] == a[j];
      } else {
        assert m[j] == t[j - |a|];
      }
    }
  }

  /**
   * formulate_output as written, when the rendering is exactly dataLen
   * bytes: the result is dataLen and the error buffer is untouched; with
   * one frame the buffer reads back without the text's last byte, with
   * more the buffer holds the whole text and data[dataLen] becomes NUL.
   */
  lemma AsWrittenExactlyFull(frames: seq<TraceFrame>, depth: int, root: string,
                             data: seq<char>, dataLen: nat, err: seq<char>, errLen: nat)
    requires depth <= |frames| && dataLen <= |data| && errLen <= |err|
    requires var n := Max(depth, 0); n > 0 && |Joined(FrameTexts(frames, n, root), n)| == dataLen
    ensures var n := Max(depth, 0);
      var all := Joined(FrameTexts(frames, n, root), n);
      var o := FormulateOutputSpec(frames, depth, root, data, dataLen, err, errLen);
      && o.r == dataLen && o.err == err && dataLen > 0
      && (n == 1 ==> o.data[dataLen - 1] == NUL && CStrAt(o.data, 0) == all[..dataLen - 1])
      && (n > 1 ==> o.data[..dataLen] == all && (dataLen < |data| ==> o.data[dataLen] == NUL))
      && (forall j :: dataLen < j < |data| ==> o.data[j] == data[j])
  {
    var n := Max(depth, 0);
    var ts := FrameTexts(frames, n, root);
    FrameTextsNulFree(frames, n, root);
    hide FrameText, FrameTexts;
    AsWrittenFullBuffer(ts, dataLen, data);
    if n == 1 {
      var all := Joined(ts, n);
      JoinedNulFree(ts, n);
      SnprintfReadBack(data, 0, dataLen, all);
    }
  }

  /**
   * Where the as-written writes end: a rendering shorter than dataLen, or
   * one whose first text alone is refused, stays inside the buffer; an
   * exactly full rendering of several texts, and a refusal at any later
   * text, write past data_len.
   */
  lemma AsWrittenReach(ts: seq<string>, dataLen: nat, buf: seq<char>)
    requires dataLen <= |buf| && forall k :: 0 <= k < |ts| ==> ts[k] != []
    ensures var z := AsWrittenScan(ts, 0, 0, dataLen, buf, 0);
      var all := Joined(ts, |ts|);
      && (|all| < dataLen ==> z.reach <= dataLen)
      && (|all| == dataLen ==> (z.reach > dataLen <==> |ts| > 1))
      && (z.result.Overflow? ==> (z.reach > dataLen <==> z.result.emitted > 1))
  {
    assert Joined(ts, 0) == [];
    AsWrittenCounts(ts, 0, dataLen, buf);
  }

  /**
   * With 30 bytes and two 17-byte frame texts the first frame fits, and the
   * second snprintf, given 30 bytes of room 17 bytes in, writes through
   * index 34: five bytes past the caller's buffer.
   */
  lemma AsWrittenOverruns(buf: seq<char>)
    ensures var t := "file2:12 - func2;";
      var z := AsWrittenScan([t, t], 0, 0, 30, buf, 0);
      |t| == 17 && z.result == Overflow(34, 2) && z.reach == 35
  {
  }

  /**
   * With a 17-byte buffer and one 17-byte text the check `17 > 17` passes
   * and 17 is returned, though snprintf had room for 16 bytes and a NUL: the
   * returned length counts a final ';' the buffer does not hold.
   */
  lemma AsWrittenAcceptsTruncated(buf: seq<char>)
    requires |buf| >= 17
    ensures var t := "file2:12 - func2;";
      var z := AsWrittenScan([t], 0, 0, 17, buf, 0);
      && z.result == Fits(17) && z.mem[16] == NUL && t[16] == ';'
      && CorrectedScan([t], 0, 0, 17) == Overflow(17, 1)
  {
  }

  // The corrected formatter

  /**
   * The corrected capacity check, from text `i` with `written` bytes
   * already out: the texts are emitted one by one, each snprintf given the
   * room that is left, and the first cumulative total that leaves no byte
   * for the terminating NUL stops the output.
   */
  function CorrectedScan(ts: seq<string>, i: nat, written: nat, dataLen: nat): (s: Scanned)
    requires i <= |ts|
    ensures s.Overflow? ==> i < s.emitted <= |ts|
    decreases |ts| - i
  {
    if i == |ts| then Fits(written)
    else
      var w := written + |ts[i]|;
      if w >= dataLen then Overflow(w, i + 1) else CorrectedScan(ts, i + 1, w, dataLen)
  }

  /**
   * The corrected scan counts exactly what it emitted: a rendering that
   * fits is the concatenation of all texts and shorter than the buffer
   * (when there is any text); an overflow is the first prefix of texts
   * reaching the buffer's length, every shorter prefix having fitted.
   */
  lemma {:induction false} ScanCounts(ts: seq<string>, i: nat, dataLen: nat)
    requires i <= |ts| && (i > 0 ==> |Joined(ts, i)| < dataLen)
    ensures var s := CorrectedScan(ts, i, |Joined(ts, i)|, dataLen);
      && (s.Fits? ==> s.total == |Joined(ts, |ts|)| && (ts != [] ==> s.total < dataLen))
      && (s.Overflow? ==>
            i < s.emitted <= |ts| && s.total == |Joined(ts, s.emitted)| && s.total >= dataLen &&
            (s.emitted > 1 ==> |Joined(ts, s.emitted - 1)| < dataLen))
    decreases |ts| - i
  {
    if i < |ts| {
      var w := |Joined(ts, i)| + |ts[i]|;
      if w < dataLen {
        ScanCounts(ts, i + 1, dataLen);
      }
    }
  }

  /** How many texts a scan of `n` texts wrote out. */
  function Emitted(s: Scanned, n: nat): nat {
    if s.Overflow? then s.emitted else n
  }

  /**
   * formulate_output corrected: the frames below `depth` are written
   * highest index first, each snprintf given the room that is left; a
   * rendering that fits with its NUL returns its length; otherwise the
   * written prefix stays, the message goes to the error buffer and the
   * result is minus the message's full length.
   */
  function FormulateOutputCorrected(frames: seq<TraceFrame>, depth: int, root: string,
                                    data: seq<char>, dataLen: nat, err: seq<char>, errLen: nat): (o: Outcome)
    requires depth <= |frames| && dataLen <= |data| && errLen <= |err|
    ensures |o.data| == |data| && |o.err| == |err|
  {
    var n := Max(depth, 0);
    var ts := FrameTexts(frames, n, root);
    var s := CorrectedScan(ts, 0, 0, dataLen);
    var written := Written(data, dataLen, Joined(ts, Emitted(s, n)));
    if s.Fits? then Outcome(s.total, written, err)
    else
      var m := NoSpaceMessage(s.total, dataLen);
      Outcome(-|m|, written, SnprintfWrite(err, 0, errLen, m))
  }

  /**
   * The corrected writes, for any texts that are non-empty and NUL-free as
   * frame texts are (FrameTextsNulFree): when the rendering fits, the buffer
   * reads back as exactly the concatenated texts; in every case nothing at
   * or past dataLen changes.
   */
  lemma CorrectedReadsBack(ts: seq<string>, buf: seq<char>, dataLen: nat)
    requires dataLen <= |buf|
    requires forall i :: 0 <= i < |ts| ==> NUL !in ts[i] && ts[i] != []
    ensures var s := CorrectedScan(ts, 0, 0, dataLen);
      var all := Joined(ts, |ts|);
      && (s.Fits? && ts != [] ==> CStrAt(Written(buf, dataLen, all), 0) == all && s.total == |all|)
      && (s.Fits? ==> forall j :: dataLen <= j < |buf| ==> Written(buf, dataLen, all)[j] == buf[j])
      && (s.Overflow? ==>
            s.emitted <= |ts| &&
            forall j :: dataLen <= j < |buf| ==> Written(buf, dataLen, Joined(ts, s.emitted))[j] == buf[j])
  {
    ScanCounts(ts, 0, dataLen);
    var s := CorrectedScan(ts, 0, 0, dataLen);
    var all := Joined(ts, |ts|);
    if s.Fits? && ts != [] {
      JoinedNulFree(ts, |ts|);
      assert all != [] by { assert |all| >= |ts[|ts| - 1]|; }
      assert |all| < dataLen;
      SnprintfReadBack(buf, 0, dataLen, all);
    }
  }

  /**
   * What the corrected formatter promises: a rendering that fits with its
   * NUL is returned as its length, reads back from the data buffer as the
   * frame texts, highest index first, and leaves the error buffer alone;
   * an overflow returns minus the full length of the "Not enough space!"
   * message and leaves the message, cut to errLen - 1 bytes, in the error
   * buffer; either way no byte at or past dataLen changes.
   */
  lemma CorrectedOutputPromise(frames: seq<TraceFrame>, depth: int, root: string,
                               data: seq<char>, dataLen: nat, err: seq<char>, errLen: nat)
    requires depth <= |frames| && dataLen <= |data| && errLen <= |err|
    ensures var n := Max(depth, 0);
      var ts := FrameTexts(frames, n, root);
      var o := FormulateOutputCorrected(frames, depth, root, data, dataLen, err, errLen);
      var s := CorrectedScan(ts, 0, 0, dataLen);
      var m := NoSpaceMessage(s.total, dataLen);
      && (forall j :: dataLen <= j < |data| ==> o.data[j] == data[j])
      && (s.Fits? ==> o.r == |Joined(ts, n)| && o.err == err)
      && (s.Fits? && n > 0 ==> CStrAt(o.data, 0) == Joined(ts, n))
      && (s.Overflow? ==> o.r == -|m| && s.total >= dataLen)
      && (s.Overflow? && errLen > 0 ==> CStrAt(o.err, 0) == m[..Min(|m|, errLen - 1)])
  {
    var n := Max(depth, 0);
    var ts := FrameTexts(frames, n, root);
    var s := CorrectedScan(ts, 0, 0, dataLen);
    FrameTextsNulFree(frames, n, root);
    CorrectedReadsBack(ts, data, dataLen);
    assert Joined(ts, 0) == [];
    ScanCounts(ts, 0, dataLen);
    if s.Overflow? && errLen > 0 {
      SnprintfReadBack(err, 0, errLen, NoSpaceMessage(s.total, dataLen));
    }
  }
}
