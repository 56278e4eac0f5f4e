/**
 * The pyroscope embedding API (pyroscope_api.c): a registry of per-pid
 * sessions kept as a hand-linked list, and the entry points that register
 * a pid, sample its stack into the caller's buffer and release it again.
 */
module Api {
  import opened Defs
  import opened CFormat
  import opened ProcMem
  import opened Trace
  import opened Output

  const PATH_MAX: nat := 4096

  /**
   * app_root_dir as strlen and memcmp read it after get_process_cwd: empty
   * when readlink fails (`link` is None), else the link's bytes up to the
   * first NUL, at most PATH_MAX of them; readlink writes no NUL, the rest of
   * the calloc'ed buffer is zero.
   */
  function ProcessCwd(link: Option<string>): (root: string)
    ensures NUL !in root && |root| <= PATH_MAX
    ensures link.None? ==> root == []
  {
    if link.None? then [] else CStrAt(link.value[..Min(|link.value|, PATH_MAX)], 0)
  }

  /** A link that is shorter than the buffer and free of NULs is what the formatter strips. */
  lemma ProcessCwdReadsLink(link: string)
    requires |link| < PATH_MAX && NUL !in link
    ensures ProcessCwd(Some(link)) == link
  {
    assert link[..Min(|link|, PATH_MAX)] == link;
    CStrAtIs(link, 0, link);
  }

  const NOT_INITIALIZED_PREFIX: string := "Phpspy not initialized for "
  const NOT_INITIALIZED_SUFFIX: string := " pid"

  /** "Phpspy not initialized for %d pid". */
  function NotInitializedMessage(pid: int): string {
    NOT_INITIALIZED_PREFIX + SignedDecimal(pid) + NOT_INITIALIZED_SUFFIX
  }

  /** The answer to an unregistered pid: the message written snprintf-style, minus its full length. */
  function NotInitialized(pid: int, err: seq<char>, errLen: nat): (e: Reported)
    requires errLen <= |err|
    ensures e.r < 0 && |e.err| == |err|
  {
    var m := NotInitializedMessage(pid);
    Reported(-|m|, SnprintfWrite(err, 0, errLen, m))
  }

  /**
   * The answer is always negative, 31 plus the width of the pid, whatever
   * room the buffer had; the buffer reads back as the message cut to
   * errLen - 1 bytes, and the pid printed in it reads back as the pid.
   */
  lemma NotInitializedNamesPid(pid: int, err: seq<char>, errLen: nat)
    requires errLen <= |err|
    ensures var m := NotInitializedMessage(pid);
      var e := NotInitialized(pid, err, errLen);
      && e.r < 0 && e.r == -(31 + |SignedDecimal(pid)|)
      && m[..|NOT_INITIALIZED_PREFIX|] == NOT_INITIALIZED_PREFIX
      && m[|m| - |NOT_INITIALIZED_SUFFIX|..] == NOT_INITIALIZED_SUFFIX
      && SignedValue(m[|NOT_INITIALIZED_PREFIX|..|m| - |NOT_INITIALIZED_SUFFIX|]) == pid
      && (errLen > 0 ==> CStrAt(e.err, 0) == m[..Min(|m|, errLen - 1)])
      && (errLen == 0 ==> e.err == err)
  {
    var d := SignedDecimal(pid);
    var m := NotInitializedMessage(pid);
    assert m[|NOT_INITIALIZED_PREFIX|..|m| - |NOT_INITIALIZED_SUFFIX|] == d;
    SignedDecimalRoundTrip(pid);
    if errLen > 0 {
      SnprintfReadBack(err, 0, errLen, m);
    }
  }

  /** The snprintf of the not-initialized message that phpspy_snapshot and phpspy_cleanup share. */
  method ReportNotInitialized(pid: int, err: array<char>, errLen: nat) returns (r: int)
    requires errLen <= err.Length
    modifies err
    ensures Reported(r, err[..]) == NotInitialized(pid, old(err[..]), errLen)
  {
    var n := Snprintf(err, 0, errLen, NotInitializedMessage(pid));
    r := -(n as int);
  }

  /**
   * The strcmp chain of initialize: the walker copy chosen for a version
   * tag, named by its tag; None for any other tag.
   */
  function WalkerFor(phpv: string): (w: Option<string>)
    ensures w.Some? <==> phpv in KNOWN_TAGS
    ensures w.Some? ==> w.value == phpv
  {
    if phpv == "70" then Some("70")
    else if phpv == "71" then Some("71")
    else if phpv == "72" then Some("72")
    else if phpv == "73" then Some("73")
    else if phpv == "74" then Some("74")
    else if phpv == "80" then Some("80")
    else if phpv == "81" then Some("81")
    else if phpv == "82" then Some("82")
    else if phpv == "83" then Some("83")
    else None
  }

  /** What open("/proc/<pid>/mem") gives: a descriptor, or the errno of the failure. */
  datatype OpenResult = Opened(fd: nat) | OpenFailed(errno: int)

  /** The tag get_php_version settles on for the version bytes it ends up with; None when it fails. */
  function DetectedTag(version: Option<seq<char>>): Option<string> {
    if version.Some? then PhpVersionTag(version.value) else None
  }

  /** What initialize ends with: its status, the version option afterwards, and the walker it chose. */
  datatype InitEnd = InitEnd(rv: Status, phpv: string, walker: Option<string>)

  /**
   * The first half of initialize's decisions: with the option at "auto",
   * detect the version (a failure is returned and the option stays
   * "auto"); then dispatch on the option, an unknown tag being an error.
   */
  function DispatchSpec(phpv: string, detected: Option<string>): (d: InitEnd)
    ensures d.rv == OK <==> d.walker.Some?
  {
    if phpv == "auto" && detected.None? then InitEnd(ERR, phpv, None)
    else
      var v := if phpv == "auto" then detected.value else phpv;
      var w := WalkerFor(v);
      InitEnd(if w.None? then ERR else OK, v, w)
  }

  /** The second half: the open of the memory file (ESRCH means the pid is dead), then the status of find_addresses, `located`. */
  function OpenStatus(opening: OpenResult, located: Status): Status {
    match opening
    case OpenFailed(errno) => if errno == ESRCH then ERR | ERR_PID_DEAD else ERR
    case Opened(_) => located
  }

  /** initialize's decisions: the dispatch, and when a walker was chosen, the open and the address lookups. */
  function InitializeSpec(phpv: string, detected: Option<string>, opening: OpenResult, located: Status): (e: InitEnd)
    ensures e.rv == OK ==> e.walker.Some? && opening.Opened? && located == OK
  {
    var d := DispatchSpec(phpv, detected);
    if d.walker.None? then d else d.(rv := OpenStatus(opening, located))
  }

  /**
   * initialize succeeds exactly when a walker was chosen, the memory file
   * opened and the addresses were found; the walker chosen is the one for
   * the option as it stands afterwards, a known tag; an open failure sets
   * the ERR bit, with PID_DEAD exactly for ESRCH.
   */
  lemma InitializeOutcome(phpv: string, detected: Option<string>, opening: OpenResult, located: Status)
    ensures var e := InitializeSpec(phpv, detected, opening, located);
      && (e.rv == OK <==> e.walker.Some? && opening.Opened? && located == OK)
      && (e.walker.Some? ==> e.walker == Some(e.phpv) && e.phpv in KNOWN_TAGS)
      && (e.walker.None? ==> e.rv == ERR)
      && (e.walker.Some? && opening.OpenFailed? ==>
            e.rv & ERR != 0 && (HasFlag(e.rv, ERR_PID_DEAD) <==> opening.errno == ESRCH))
  {
    StatusBitsDistinct();
  }

  /**
   * The version option is global: once it holds a tag (set by the user or
   * by an earlier detection), detection is skipped and every later
   * initialize dispatches on that tag whatever the new process runs; a
   * detection stores the tag it found.
   */
  lemma InitializeVersionPinned(phpv: string, d1: Option<string>, d2: Option<string>, opening: OpenResult, located: Status)
    ensures phpv != "auto" ==>
      InitializeSpec(phpv, d1, opening, located) == InitializeSpec(phpv, d2, opening, located) &&
      InitializeSpec(phpv, d1, opening, located).phpv == phpv
    ensures phpv == "auto" && d1.Some? ==> InitializeSpec(phpv, d1, opening, located).phpv == d1.value
    ensures phpv == "auto" && d1.None? ==> InitializeSpec(phpv, d1, opening, located).phpv == "auto"
  {
  }

  /**
   * A detection that finds no tag ends with ERR and no walker chosen,
   * whatever the memory file and the addresses would have given: the
   * session keeps a NULL do_trace_ptr.
   */
  lemma UnknownVersionUnarmed(opening: OpenResult, located: Status)
    ensures InitializeSpec("auto", None, opening, located) == InitEnd(ERR, "auto", None)
  {
  }

  const DIRECT_MEM_KEY: string := "direct_mem"
  const AWK_PATTERN_KEY: string := "libphp_awk_pattern"

  /** The options phpspy_init_spy can set. */
  datatype SpySettings = SpySettings(directMem: bool, awkPattern: string)

  /**
   * A pair phpspy_init_spy can read: strtok_r finds a key in it, and a
   * value after the key when the key is one it uses (a missing key or
   * value would be a NULL handed to strcmp or strdup).
   */
  predicate SpyPairReadable(pair: string) {
    var kv := Tokens(pair, '=');
    |kv| >= 1 && (kv[0] == DIRECT_MEM_KEY || kv[0] == AWK_PATTERN_KEY ==> |kv| >= 2)
  }

  /** The key of a pair: its first '='-token. */
  function SpyKey(pair: string): string
    requires SpyPairReadable(pair)
  {
    Tokens(pair, '=')[0]
  }

  /** The value of a pair whose key is used: its second '='-token. */
  function SpyValue(pair: string): string
    requires SpyPairReadable(pair) && (SpyKey(pair) == DIRECT_MEM_KEY || SpyKey(pair) == AWK_PATTERN_KEY)
  {
    Tokens(pair, '=')[1]
  }

  /** One pair: direct_mem is set to whether its value is exactly "true", the pattern to the value; other keys are ignored. */
  function ApplySpyPair(o: SpySettings, pair: string): SpySettings
    requires SpyPairReadable(pair)
  {
    if SpyKey(pair) == DIRECT_MEM_KEY then o.(directMem := SpyValue(pair) == "true")
    else if SpyKey(pair) == AWK_PATTERN_KEY then o.(awkPattern := SpyValue(pair))
    else o
  }

  /** The pairs applied in order. */
  function ApplySpyPairs(o: SpySettings, pairs: seq<string>): (s: SpySettings)
    requires forall i :: 0 <= i < |pairs| ==> SpyPairReadable(pairs[i])
    ensures (forall i :: 0 <= i < |pairs| ==> SpyKey(pairs[i]) != DIRECT_MEM_KEY) ==> s.directMem == o.directMem
    ensures (forall i :: 0 <= i < |pairs| ==> SpyKey(pairs[i]) != AWK_PATTERN_KEY) ==> s.awkPattern == o.awkPattern
  {
    if pairs == [] then o else ApplySpyPair(ApplySpyPairs(o, pairs[..|pairs| - 1]), pairs[|pairs| - 1])
  }

  /** The index of the last pair with key `key`; -1 when there is none. */
  function LastWithKey(pairs: seq<string>, key: string): (k: int)
    requires forall i :: 0 <= i < |pairs| ==> SpyPairReadable(pairs[i])
    ensures -1 <= k < |pairs| && (k >= 0 ==> SpyKey(pairs[k]) == key)
    ensures forall j :: k < j < |pairs| ==> SpyKey(pairs[j]) != key
  {
    if pairs == [] then -1
    else if SpyKey(pairs[|pairs| - 1]) == key then |pairs| - 1
    else LastWithKey(pairs[..|pairs| - 1], key)
  }

  /**
   * The last pair naming an option decides it; an option no pair names
   * keeps its value.
   */
  lemma {:induction false} SpyPairsLastWins(o: SpySettings, pairs: seq<string>)
    requires forall i :: 0 <= i < |pairs| ==> SpyPairReadable(pairs[i])
    ensures var r := ApplySpyPairs(o, pairs);
      var d := LastWithKey(pairs, DIRECT_MEM_KEY);
      var p := LastWithKey(pairs, AWK_PATTERN_KEY);
      && r.directMem == (if d < 0 then o.directMem else SpyValue(pairs[d]) == "true")
      && r.awkPattern == (if p < 0 then o.awkPattern else SpyValue(pairs[p]))
    decreases |pairs|
  {
    if pairs != [] {
      var init := pairs[..|pairs| - 1];
      assert forall i :: 0 <= i < |init| ==> init[i] == pairs[i];
      SpyPairsLastWins(o, init);
    }
  }

  const EXAMPLE_SPY_PAIRS: seq<string> := ["direct_mem=true", "libphp_awk_pattern=libphp7"]
  /** "direct_mem=true,libphp_awk_pattern=libphp7" */
  const EXAMPLE_SPY_ARGS: string := EXAMPLE_SPY_PAIRS[0] + "," + EXAMPLE_SPY_PAIRS[1]

  /** strtok_r splits EXAMPLE_SPY_ARGS into its two pairs. */
  lemma SpyArgsSplit()
    ensures Tokens(EXAMPLE_SPY_ARGS, ',') == EXAMPLE_SPY_PAIRS
  {
    hide Tokens, RunLength;
    var ps := EXAMPLE_SPY_PAIRS;
    assert JoinWith(ps[1..], ',') == ps[1];
    assert JoinWith(ps, ',') == EXAMPLE_SPY_ARGS;
    TokensOfJoin(ps, ',');
  }

  /** strtok_r splits each of the example pairs into its key and its value. */
  lemma SpyPairsSplit()
    ensures Tokens("direct_mem=true", '=') == [DIRECT_MEM_KEY, "true"]
    ensures Tokens("libphp_awk_pattern=libphp7", '=') == [AWK_PATTERN_KEY, "libphp7"]
  {
    hide Tokens, RunLength;
    assert JoinWith([DIRECT_MEM_KEY, "true"], '=') == "direct_mem=true";
    TokensOfJoin([DIRECT_MEM_KEY, "true"], '=');
    assert JoinWith([AWK_PATTERN_KEY, "libphp7"], '=') == "libphp_awk_pattern=libphp7";
    TokensOfJoin([AWK_PATTERN_KEY, "libphp7"], '=');
  }

  /** EXAMPLE_SPY_ARGS selects direct reads and a PHP 7 library pattern. */
  lemma SpyArgsExample()
    ensures var pairs := Tokens(EXAMPLE_SPY_ARGS, ',');
      && (forall i :: 0 <= i < |pairs| ==> SpyPairReadable(pairs[i]))
      && ApplySpyPairs(SpySettings(false, "libphp[78]?"), pairs) == SpySettings(true, "libphp7")
  {
    hide Tokens, RunLength;
    SpyArgsSplit();
    SpyPairsSplit();
    var pairs := EXAMPLE_SPY_PAIRS;
    assert pairs[..1] == ["direct_mem=true"];
    assert pairs[..1][..0] == [];
  }

  /** One entry of the registry (pyroscope_context_t). */
  class Session {
    var pid: int
    var appRootDir: string
    /** The phpspy context of the session, with its frame array. */
    const trace: TraceContext
    /** The tag of the walker copy do_trace_ptr points at; None for a NULL pointer. */
    var doTrace: Option<string>
    var next: Session?

    /** A zeroed session, as calloc leaves one. */
    constructor ()
      ensures pid == 0 && appRootDir == [] && doTrace.None? && next == null
      ensures trace.Valid() && fresh(trace.Repr()) && trace.depth == 0
      ensures trace.target.pid == 0 && trace.target.memFd == 0 && !trace.target.memFdAliveCheck
      ensures trace.target.Addresses() == AddressSet(0, 0, 0, 0)
    {
      pid := 0;
      appRootDir := [];
      trace := new TraceContext();
      doTrace := None;
      next := null;
    }

    /**
     * The body of phpspy_snapshot once the session is found: do_trace
     * through do_trace_ptr, its status through formulate_error_msg (a
     * non-zero answer is returned), then formulate_output.
     */
    method Sample(direct: bool, mem: RemoteMemory, data: array<char>, dataLen: nat, err: array<char>, errLen: nat)
      returns (r: int)
      requires trace.Valid() && doTrace.Some? && dataLen <= data.Length && errLen <= err.Length && data != err
      requires data !in trace.Repr() && err !in trace.Repr()
      modifies trace.Repr(), data, err
      ensures SnapshotSpec(direct, mem, old(trace.State()), trace.target.executorGlobalsAddr, trace.target.pid,
                           appRootDir, old(data[..]), dataLen, old(err[..]), errLen)
        == SnapshotOut(r, trace.State(), data[..], err[..])
    {
      hide DoTraceSpec, ErrorMsgSpec, FormulateOutputSpec;
      ghost var s := trace.State();
      var rv := trace.DoTrace(direct, mem);
      DoTraceLastDepth(direct, mem, s, trace.target.executorGlobalsAddr);
      r := FormulateErrorMsg(rv.code, trace, err, errLen);
      if r != 0 {
        return;
      }
      r := FormulateOutput(trace, appRootDir, data, dataLen, err, errLen);
    }
  }

  /** The index of the first session in list order whose pid is `pid`; |cs| when there is none. */
  ghost function FirstWithPid(cs: seq<Session>, pid: int): (k: nat)
    reads cs`pid
    ensures k <= |cs|
    ensures forall i :: 0 <= i < k ==> cs[i].pid != pid
    ensures k < |cs| ==> cs[k].pid == pid
    decreases |cs|
  {
    if cs == [] then 0
    else if cs[0].pid == pid then 0
    else 1 + FirstWithPid(cs[1..], pid)
  }

  /** A session appended at the tail is found only when no earlier session has its pid. */
  lemma FirstWithPidAppend(cs: seq<Session>, c: Session, pid: int)
    ensures FirstWithPid(cs, pid) < |cs| ==> FirstWithPid(cs + [c], pid) == FirstWithPid(cs, pid)
    ensures FirstWithPid(cs, pid) == |cs| ==> FirstWithPid(cs + [c], pid) == if c.pid == pid then |cs| else |cs| + 1
  {
    var k := FirstWithPid(cs, pid);
    var k' := FirstWithPid(cs + [c], pid);
    if k < |cs| {
      assert (cs + [c])[k] == cs[k];
    } else {
      assert (cs + [c])[|cs|] == c;
    }
  }

  /** Each of the sessions has a walker: do_trace_ptr is not NULL. */
  ghost predicate AllArmed(cs: seq<Session>)
    reads cs`doTrace
  {
    forall c :: c in cs ==> c.doTrace.Some?
  }

  /**
   * The library's global state: the `first_ctx` list (its list-order
   * view is `contexts`) and the phpspy options it shares with the sampler.
   */
  class Registry {
    var first: Session?
    ghost var contexts: seq<Session>
    const opts: Options

    /** `first_ctx` and the `next` links spell out `contexts`, which ends in NULL. */
    ghost predicate Linked()
      reads this`first, this`contexts, contexts`next
    {
      && (contexts == [] ==> first == null)
      && (contexts != [] ==> first == contexts[0] && contexts[|contexts| - 1].next == null)
      && (forall i :: 0 <= i < |contexts| - 1 ==> contexts[i].next == contexts[i + 1])
    }

    /** A list that ends in NULL has no cycle: it holds each session once. */
    lemma {:induction false} LinkedDistinct(i: nat, j: nat)
      requires Linked() && i < j < |contexts|
      ensures contexts[i] != contexts[j]
      decreases |contexts| - j
    {
      if j < |contexts| - 1 {
        LinkedDistinct(i + 1, j + 1);
        assert contexts[i].next == contexts[i + 1] && contexts[j].next == contexts[j + 1];
      } else {
        assert contexts[i].next == contexts[i + 1];
      }
    }

    /** A well-formed list of sessions with well-formed contexts. */
    ghost predicate Valid()
      reads this`first, this`contexts, contexts`next
    {
      Linked() && forall c :: c in contexts ==> c.trace.Valid()
    }

    /** Every registered session has a walker. */
    ghost predicate Armed()
      reads this`contexts, contexts`doTrace
    {
      AllArmed(contexts)
    }

    /** The session find_matching_context answers for `pid`. */
    ghost function SessionFor(pid: int): Session?
      reads this`contexts, contexts`pid
    {
      var k := FirstWithPid(contexts, pid);
      if k < |contexts| then contexts[k] else null
    }

    /** The objects a snapshot of `pid` may change: the matched session's context. */
    ghost function Walkers(pid: int): set<object>
      reads this`contexts, contexts`pid
    {
      var c := SessionFor(pid);
      if c == null then {} else c.trace.Repr()
    }

    /** The library at load time: no session, the options at their defaults. */
    constructor ()
      ensures Valid() && Armed() && contexts == [] && fresh(opts)
      ensures opts.executorGlobalsAddr == 0 && opts.sapiGlobalsAddr == 0 && !opts.captureReq && !opts.captureMem
      ensures opts.phpv == "auto" && !opts.directMem && opts.libnameAwkPattern == "libphp[78]?" && opts.logErrorEnabled
    {
      first := null;
      contexts := [];
      opts := new Options();
    }

    /**
     * phpspy_init_spy: split the arguments at ',' and each pair at '='
     * with strtok_r, and set the options the keys name.
     */
    method InitSpy(args: string)
      requires forall i :: 0 <= i < |Tokens(args, ',')| ==> SpyPairReadable(Tokens(args, ',')[i])
      modifies opts`directMem, opts`libnameAwkPattern
      ensures SpySettings(opts.directMem, opts.libnameAwkPattern) ==
        ApplySpyPairs(SpySettings(old(opts.directMem), old(opts.libnameAwkPattern)), Tokens(args, ','))
    {
      var pairs := Tokens(args, ',');
      var i := 0;
      while i < |pairs|
        invariant i <= |pairs|
        invariant SpySettings(opts.directMem, opts.libnameAwkPattern) ==
          ApplySpyPairs(SpySettings(old(opts.directMem), old(opts.libnameAwkPattern)), pairs[..i])
      {
        assert pairs[..i + 1][..i] == pairs[..i];
        var kv := Tokens(pairs[i], '=');
        var key := kv[0];
        if key == DIRECT_MEM_KEY {
          opts.directMem := kv[1] == "true";
        } else if key == AWK_PATTERN_KEY {
          opts.libnameAwkPattern := kv[1];
        }
        i := i + 1;
      }
      assert pairs[..i] == pairs;
    }

    /** allocate_context: a zeroed session appended at the tail; the sessions before it stay, in order. */
    method AllocateContext() returns (c: Session)
      requires Valid()
      modifies this, contexts`next
      ensures Valid() && contexts == old(contexts) + [c] && fresh(c) && fresh(c.trace.Repr())
      ensures c.pid == 0 && c.appRootDir == [] && c.doTrace.None? && c.next == null && c.trace.depth == 0
      ensures c.trace.target.pid == 0 && c.trace.target.memFd == 0 && !c.trace.target.memFdAliveCheck
      ensures c.trace.target.Addresses() == AddressSet(0, 0, 0, 0)
      ensures old(Armed()) ==> forall i :: 0 <= i < |old(contexts)| ==> contexts[i].doTrace.Some?
    {
      if first == null {
        c := new Session();
        first := c;
        contexts := [c];
        return;
      }
      ghost var cs := contexts;
      var current := first;
      ghost var i := 0;
      while current.next != null
        invariant 0 <= i < |cs| && current == cs[i]
        invariant i < |cs| - 1 ==> current.next == cs[i + 1]
        decreases |cs| - i
      {
        current := current.next;
        i := i + 1;
      }
      assert i == |cs| - 1;
      forall j | 0 <= j < i
        ensures cs[j] != cs[i]
      {
        LinkedDistinct(j, i);
      }
      c := new Session();
      current.next := c;
      contexts := cs + [c];
      forall j | 0 <= j < |contexts| - 1
        ensures contexts[j].next == contexts[j + 1]
      {
        if j < i {
          assert cs[j] != cs[i];
        }
      }
    }

    /**
     * deallocate_context of the session at index `k`: unlinked from its
     * predecessor, or from the head when it is first; the others stay in
     * order. free is not modelled.
     */
    method DeallocateContext(ctx: Session, ghost k: nat)
      requires Valid() && k < |contexts| && contexts[k] == ctx
      modifies this, contexts`next
      ensures Valid() && contexts == old(contexts[..k] + contexts[k + 1..])
      ensures k == 0 ==> first == old(ctx.next)
      ensures old(Armed()) ==> Armed()
    {
      ghost var cs := contexts;
      if ctx == first {
        if k != 0 {
          LinkedDistinct(0, k);
        }
        first := ctx.next;
        contexts := cs[1..];
        forall j | 0 <= j < |contexts| - 1
          ensures contexts[j].next == contexts[j + 1]
        {
          assert cs[j + 1].next == cs[j + 2];
        }
      } else {
        assert k != 0;
        var iter := first;
        ghost var i := 0;
        while iter.next != ctx
          invariant 0 <= i < k && iter == cs[i] && iter.next == cs[i + 1]
          decreases k - i
        {
          iter := iter.next;
          i := i + 1;
        }
        if i + 1 != k {
          LinkedDistinct(i + 1, k);
        }
        forall j | 0 <= j < |cs| && j != i
          ensures cs[j] != cs[i]
        {
          if j < i {
            LinkedDistinct(j, i);
          } else {
            LinkedDistinct(i, j);
          }
        }
        iter.next := ctx.next;
        contexts := cs[..k] + cs[k + 1..];
        forall j | 0 <= j < |contexts| - 1
          ensures contexts[j].next == contexts[j + 1]
        {
          if j < k - 1 {
            assert cs[j] != cs[i] && contexts[j] == cs[j] && contexts[j + 1] == cs[j + 1];
          } else if j == k - 1 {
            assert contexts[j] == iter && contexts[j + 1] == cs[k + 1];
          } else {
            assert cs[j + 1] != cs[i] && contexts[j] == cs[j + 1] && contexts[j + 1] == cs[j + 2];
          }
        }
        if k == |cs| - 1 {
          assert contexts[|contexts| - 1] == iter;
        } else {
          assert cs[|cs| - 1] != cs[i] && contexts[|contexts| - 1] == cs[|cs| - 1];
        }
      }
      assert contexts == cs[..k] + cs[k + 1..];
      assert forall c :: c in contexts ==> c in cs;
    }

    /** find_matching_context: the first session in list order with the pid, or null. */
    method FindMatchingContext(pid: int) returns (c: Session?)
      requires Linked()
      ensures c == SessionFor(pid)
    {
      var ctx := first;
      ghost var i := 0;
      while true
        invariant i <= |contexts| && ctx == (if i < |contexts| then contexts[i] else null)
        invariant forall j :: 0 <= j < i ==> contexts[j].pid != pid
        decreases |contexts| - i
      {
        if ctx == null {
          return null;
        }
        if ctx.pid == pid {
          return ctx;
        }
        ctx := ctx.next;
        i := i + 1;
      }
    }

    /** The first steps of phpspy_init_pid: a session appended by allocate_context, given the pid and the process root. */
    method Register(pid: int, link: Option<string>) returns (c: Session)
      requires Valid()
      modifies this, contexts`next
      ensures Valid() && contexts == old(contexts) + [c] && fresh(c) && fresh(c.trace.Repr())
      ensures c.pid == pid && c.appRootDir == ProcessCwd(link) && c.doTrace.None?
      ensures c.trace.target.memFd == 0 && !c.trace.target.memFdAliveCheck
      ensures c.trace.target.Addresses() == AddressSet(0, 0, 0, 0)
      ensures old(Armed()) ==> AllArmed(old(contexts))
    {
      c := AllocateContext();
      c.pid := pid;
      c.appRootDir := ProcessCwd(link);
    }

    /** The last steps of phpspy_init_pid: initialize, and its status through formulate_error_msg. */
    method InitializeReporting(session: Session, pid: int, mem: RemoteMemory, probe: Option<seq<char>>,
                               opening: OpenResult, resolve: string -> SymbolAnswer, err: array<char>, errLen: nat)
      returns (rv: Status, r: int, ghost e: InitEnd)
      requires Valid() && errLen <= err.Length
      modifies session`doTrace, opts`phpv, opts`logErrorEnabled, err
      modifies session.trace.target`pid, session.trace.target`memFd, session.trace.target`memFdAliveCheck
      modifies session.trace.target`executorGlobalsAddr, session.trace.target`sapiGlobalsAddr
      modifies session.trace.target`allocGlobalsAddr, session.trace.target`basicFunctionsModuleAddr
      ensures Valid() && contexts == old(contexts)
      ensures var t := session.trace.target;
        var version := VersionBytes(opts.directMem, mem, old(t.memFdAliveCheck), old(t.basicFunctionsModuleAddr), probe);
        var loc := Locate(opts.executorGlobalsAddr, opts.sapiGlobalsAddr, opts.captureReq, opts.captureMem,
                          old(opts.logErrorEnabled), resolve, old(t.Addresses()));
        e == InitializeSpec(old(opts.phpv), DetectedTag(version.0), opening, loc.rv)
      ensures rv == e.rv && opts.phpv == e.phpv && session.trace.target.pid == pid
      ensures session.doTrace == (if e.walker.Some? then e.walker else old(session.doTrace))
      ensures Reported(r, err[..]) == ErrorMsgSpec(e.rv, pid, old(err[..]), errLen)
      ensures rv == OK ==> session.doTrace.Some?
    {
      hide InitializeSpec, VersionBytes, Locate, ErrorMsgSpec, DetectedTag, Linked, Armed;
      ghost var t := session.trace.target;
      ghost var version := VersionBytes(opts.directMem, mem, t.memFdAliveCheck, t.basicFunctionsModuleAddr, probe);
      ghost var loc := Locate(opts.executorGlobalsAddr, opts.sapiGlobalsAddr, opts.captureReq, opts.captureMem,
                              opts.logErrorEnabled, resolve, t.Addresses());
      e := InitializeSpec(opts.phpv, DetectedTag(version.0), opening, loc.rv);
      InitializeOutcome(opts.phpv, DetectedTag(version.0), opening, loc.rv);
      var st, lookups := Initialize(opts, session, pid, mem, probe, opening, resolve);
      rv := st.code;
      r := FormulateErrorMsg(rv, session.trace, err, errLen);
    }

    /**
     * phpspy_init_pid, as the source writes it: the new session is appended
     * and kept whatever initialize returns, so a failed init leaves a
     * registered session, without a walker when the version was not
     * recognised; the result is formulate_error_msg's.
     */
    method InitPid(pid: int, link: Option<string>, mem: RemoteMemory, probe: Option<seq<char>>,
                   opening: OpenResult, resolve: string -> SymbolAnswer, err: array<char>, errLen: nat)
      returns (r: int, ghost c: Session, ghost e: InitEnd)
      requires Valid() && errLen <= err.Length
      modifies this, contexts`next, opts`phpv, opts`logErrorEnabled, err
      ensures Valid() && contexts == old(contexts) + [c] && fresh(c)
      ensures var version := VersionBytes(opts.directMem, mem, false, 0, probe).0;
        var loc := Locate(opts.executorGlobalsAddr, opts.sapiGlobalsAddr, opts.captureReq, opts.captureMem,
                          old(opts.logErrorEnabled), resolve, AddressSet(0, 0, 0, 0));
        e == InitializeSpec(old(opts.phpv), DetectedTag(version), opening, loc.rv)
      ensures c.pid == pid && c.trace.target.pid == pid && c.appRootDir == ProcessCwd(link)
      ensures c.doTrace == e.walker && opts.phpv == e.phpv
      ensures Reported(r, err[..]) == ErrorMsgSpec(e.rv, pid, old(err[..]), errLen)
    {
      hide InitializeSpec, VersionBytes, Locate, ErrorMsgSpec, DetectedTag, ProcessCwd, Valid, Linked, Armed;
      var s := Register(pid, link);
      var rv;
      rv, r, e := InitializeReporting(s, pid, mem, probe, opening, resolve, err, errLen);
      c := s;
    }

    /**
     * The corrected ending of phpspy_init_pid: the session appended last
     * stays registered only when initialize succeeded, else it is released
     * by deallocate_context.
     */
    method KeepIfInitialized(c: Session, rv: Status, ghost prior: seq<Session>)
      requires Valid() && contexts == prior + [c] && (rv == OK ==> c.doTrace.Some?)
      modifies this, contexts`next
      ensures Valid() && contexts == (if rv == OK then prior + [c] else prior)
      ensures old(AllArmed(prior)) ==> Armed()
    {
      if rv != OK {
        DeallocateContext(c, |prior|);
        assert contexts == prior;
      }
    }

    /**
     * phpspy_init_pid, corrected: a session whose initialize failed is
     * unlinked again, so only sessions with a walker stay registered.
     */
    method InitPidReleasing(pid: int, link: Option<string>, mem: RemoteMemory, probe: Option<seq<char>>,
                            opening: OpenResult, resolve: string -> SymbolAnswer, err: array<char>, errLen: nat)
      returns (r: int, ghost c: Session, ghost e: InitEnd)
      requires Valid() && errLen <= err.Length
      modifies this, contexts`next, opts`phpv, opts`logErrorEnabled, err
      ensures Valid() && (old(Armed()) ==> Armed())
      ensures var version := VersionBytes(opts.directMem, mem, false, 0, probe).0;
        var loc := Locate(opts.executorGlobalsAddr, opts.sapiGlobalsAddr, opts.captureReq, opts.captureMem,
                          old(opts.logErrorEnabled), resolve, AddressSet(0, 0, 0, 0));
        e == InitializeSpec(old(opts.phpv), DetectedTag(version), opening, loc.rv)
      ensures opts.phpv == e.phpv && Reported(r, err[..]) == ErrorMsgSpec(e.rv, pid, old(err[..]), errLen)
      ensures e.rv != OK ==> contexts == old(contexts)
      ensures e.rv == OK ==>
        contexts == old(contexts) + [c] && fresh(c) && c.pid == pid && c.appRootDir == ProcessCwd(link) &&
        c.doTrace == e.walker
    {
      hide InitializeSpec, VersionBytes, Locate, ErrorMsgSpec, DetectedTag, ProcessCwd, Valid, Linked, Armed;
      var s := Register(pid, link);
      var rv;
      rv, r, e := InitializeReporting(s, pid, mem, probe, opening, resolve, err, errLen);
      c := s;
      KeepIfInitialized(s, rv, old(contexts));
    }

    /**
     * phpspy_snapshot: an unregistered pid gets the not-initialized
     * message; otherwise the session's walker runs, a failure is reported
     * through formulate_error_msg, and what the walk stored is rendered.
     * do_trace_ptr must not be NULL (the source calls it unchecked).
     */
    method Snapshot(pid: int, mem: RemoteMemory, data: array<char>, dataLen: nat, err: array<char>, errLen: nat)
      returns (r: int)
      requires Valid() && dataLen <= data.Length && errLen <= err.Length && data != err
      requires data !in Walkers(pid) && err !in Walkers(pid)
      requires SessionFor(pid) != null ==> SessionFor(pid).doTrace.Some?
      modifies Walkers(pid), data, err
      ensures Valid() && contexts == old(contexts) && SessionFor(pid) == old(SessionFor(pid))
      ensures SessionFor(pid) == null ==>
        Reported(r, err[..]) == NotInitialized(pid, old(err[..]), errLen) && data[..] == old(data[..])
      ensures var c := SessionFor(pid);
        c != null ==>
          SnapshotSpec(opts.directMem, mem, old(c.trace.State()), c.trace.target.executorGlobalsAddr,
                       c.trace.target.pid, c.appRootDir, old(data[..]), dataLen, old(err[..]), errLen)
          == SnapshotOut(r, c.trace.State(), data[..], err[..])
    {
      hide SnapshotSpec, NotInitialized, Linked;
      var c := FindMatchingContext(pid);
      if c == null {
        r := ReportNotInitialized(pid, err, errLen);
        return;
      }
      r := c.Sample(opts.directMem, mem, data, dataLen, err, errLen);
    }

    /**
     * phpspy_cleanup: an unregistered pid gets the not-initialized message
     * and the registry stays as it was; otherwise the first session with
     * the pid is unlinked and the result is 0. Closing its memory file is
     * not modelled.
     */
    method Cleanup(pid: int, err: array<char>, errLen: nat) returns (r: int)
      requires Valid() && errLen <= err.Length
      modifies this, contexts`next, err
      ensures Valid() && (old(Armed()) ==> Armed())
      ensures var k := old(FirstWithPid(contexts, pid));
        && (k == |old(contexts)| ==>
              contexts == old(contexts) && Reported(r, err[..]) == NotInitialized(pid, old(err[..]), errLen))
        && (k < |old(contexts)| ==>
              r == 0 && err[..] == old(err[..]) && contexts == old(contexts[..k] + contexts[k + 1..]))
    {
      var c := FindMatchingContext(pid);
      if c == null {
        r := ReportNotInitialized(pid, err, errLen);
        return;
      }
      DeallocateContext(c, FirstWithPid(contexts, pid));
      r := 0;
    }
  }

  /**
   * initialize up to the dispatch: record the pid, detect the version
   * while the option is "auto", and pick the walker for the option.
   */
  method SelectWalker(opts: Options, session: Session, pid: int, mem: RemoteMemory, probe: Option<seq<char>>)
    returns (rv: Rv)
    modifies session`doTrace, opts`phpv, session.trace.target`pid, session.trace.target`memFdAliveCheck
    ensures var t := session.trace.target;
      var auto := old(opts.phpv) == "auto";
      var version := VersionBytes(opts.directMem, mem, old(t.memFdAliveCheck), t.basicFunctionsModuleAddr, probe);
      var d := DispatchSpec(old(opts.phpv), DetectedTag(version.0));
      && rv.code == d.rv && opts.phpv == d.phpv && t.pid == pid
      && t.memFdAliveCheck == (if auto then version.1 else old(t.memFdAliveCheck))
      && session.doTrace == (if d.walker.Some? then d.walker else old(session.doTrace))
  {
    hide VersionBytes;
    var target := session.trace.target;
    target.pid := pid;
    if opts.phpv == "auto" {
      rv := GetPhpVersion(opts, target, opts.directMem, mem, probe);
      if rv.IsFailure() {
        return;
      }
    }
    var walker := WalkerFor(opts.phpv);
    if walker.None? {
      return Rv(ERR);
    }
    session.doTrace := walker;
    rv := Rv(OK);
  }

  /** initialize after the dispatch: open the memory file (given here as its outcome) and find the addresses. */
  method OpenAndLocate(opts: Options, target: Target, opening: OpenResult, resolve: string -> SymbolAnswer)
    returns (rv: Rv, ghost lookups: seq<Lookup>)
    modifies opts`logErrorEnabled, target`memFd
    modifies target`executorGlobalsAddr, target`sapiGlobalsAddr, target`allocGlobalsAddr, target`basicFunctionsModuleAddr
    ensures var loc := Locate(opts.executorGlobalsAddr, opts.sapiGlobalsAddr, opts.captureReq, opts.captureMem,
                              old(opts.logErrorEnabled), resolve, old(target.Addresses()));
      && rv.code == OpenStatus(opening, loc.rv)
      && target.memFd == (if opening.Opened? then opening.fd else -1)
      && (opening.Opened? ==> Located(rv.code, target.Addresses(), opts.logErrorEnabled, lookups) == loc)
      && (opening.OpenFailed? ==>
            target.Addresses() == old(target.Addresses()) && opts.logErrorEnabled == old(opts.logErrorEnabled))
  {
    lookups := [];
    match opening {
      case OpenFailed(errno) =>
        target.memFd := -1;
        if errno == ESRCH {
          return Rv(ERR | ERR_PID_DEAD), lookups;
        }
        return Rv(ERR), lookups;
      case Opened(fd) =>
        target.memFd := fd;
    }
    rv, lookups := FindAddresses(opts, target, resolve);
  }

  /** initialize: the dispatch, and when it chose a walker, the open and the address lookups. */
  method Initialize(opts: Options, session: Session, pid: int, mem: RemoteMemory, probe: Option<seq<char>>,
                    opening: OpenResult, resolve: string -> SymbolAnswer)
    returns (rv: Rv, ghost lookups: seq<Lookup>)
    modifies session`doTrace, opts`phpv, opts`logErrorEnabled
    modifies session.trace.target`pid, session.trace.target`memFd, session.trace.target`memFdAliveCheck
    modifies session.trace.target`executorGlobalsAddr, session.trace.target`sapiGlobalsAddr
    modifies session.trace.target`allocGlobalsAddr, session.trace.target`basicFunctionsModuleAddr
    ensures var t := session.trace.target;
      var auto := old(opts.phpv) == "auto";
      var version := VersionBytes(opts.directMem, mem, old(t.memFdAliveCheck), old(t.basicFunctionsModuleAddr), probe);
      var loc := Locate(opts.executorGlobalsAddr, opts.sapiGlobalsAddr, opts.captureReq, opts.captureMem,
                        old(opts.logErrorEnabled), resolve, old(t.Addresses()));
      var e := InitializeSpec(old(opts.phpv), DetectedTag(version.0), opening, loc.rv);
      && rv.code == e.rv && opts.phpv == e.phpv && t.pid == pid
      && t.memFdAliveCheck == (if auto then version.1 else old(t.memFdAliveCheck))
      && session.doTrace == (if e.walker.Some? then e.walker else old(session.doTrace))
      && t.memFd == (if e.walker.None? then old(t.memFd) else if opening.Opened? then opening.fd else -1)
      && (e.walker.Some? && opening.Opened? ==> Located(rv.code, t.Addresses(), opts.logErrorEnabled, lookups) == loc)
      && (!(e.walker.Some? && opening.Opened?) ==>
            t.Addresses() == old(t.Addresses()) && opts.logErrorEnabled == old(opts.logErrorEnabled))
  {
    hide VersionBytes, Locate, DispatchSpec, OpenStatus, DetectedTag;
    rv := SelectWalker(opts, session, pid, mem, probe);
    if rv.IsFailure() {
      lookups := [];
      return;
    }
    rv, lookups := OpenAndLocate(opts, session.trace.target, opening, resolve);
  }

  /** What phpspy_snapshot returns for a registered pid, and the walk state and buffers it leaves. */
  datatype SnapshotOut = SnapshotOut(r: int, walk: WalkState, data: seq<char>, err: seq<char>)

  /**
   * phpspy_snapshot for a registered session: do_trace from `s`, its
   * status through formulate_error_msg (a non-zero answer is returned),
   * then formulate_output over the frames the walk left.
   */
  function SnapshotSpec(direct: bool, mem: RemoteMemory, s: WalkState, egAddr: Addr, pid: int, root: string,
                        data: seq<char>, dataLen: nat, err: seq<char>, errLen: nat): (o: SnapshotOut)
    requires WalkShaped(s) && s.frame.depth <= MAX_STACK_DEPTH && dataLen <= |data| && errLen <= |err|
    ensures |o.data| == |data| && |o.err| == |err|
  {
    var t := DoTraceSpec(direct, mem, s, egAddr);
    DoTraceLastDepth(direct, mem, s, egAddr);
    var e := ErrorMsgSpec(t.rv, pid, err, errLen);
    if e.r != 0 then SnapshotOut(e.r, t.s, data, e.err)
    else
      var o := FormulateOutputSpec(t.s.frames, t.s.frame.depth, root, data, dataLen, e.err, errLen);
      SnapshotOut(o.r, t.s, o.data, o.err)
  }

  /**
   * When the executor globals cannot be copied and there is room for a
   * message, the snapshot is negative, leaves the data buffer alone and
   * names the failure in the error buffer.
   */
  lemma SnapshotReportsCopyFailure(direct: bool, mem: RemoteMemory, s: WalkState, egAddr: Addr, pid: int, root: string,
                                   data: seq<char>, dataLen: nat, err: seq<char>, errLen: nat)
    requires WalkShaped(s) && s.frame.depth <= MAX_STACK_DEPTH && dataLen <= |data| && errLen <= |err|
    requires ReadRecord(direct, mem, s.aliveCheck, egAddr, mem.executorGlobals).rv != OK && errLen > 0
    ensures var eg := ReadRecord(direct, mem, s.aliveCheck, egAddr, mem.executorGlobals);
      var o := SnapshotSpec(direct, mem, s, egAddr, pid, root, data, dataLen, err, errLen);
      var m := ErrorMessage(eg.rv, pid);
      && o.r < 0 && o.data == data && o.walk == s.(aliveCheck := eg.aliveCheck)
      && CStrAt(o.err, 0) == m[..Min(|m|, errLen - 1)]
  {
    var eg := ReadRecord(direct, mem, s.aliveCheck, egAddr, mem.executorGlobals);
    DoTraceSwallowsWalkErrors(direct, mem, s, egAddr);
    ErrorResultSignals(eg.rv, pid, err, errLen);
  }

  /**
   * Once the executor globals are copied the frames are rendered, whatever
   * the walk returned; with no room for a message even a failed copy goes
   * on to render the frames stored by earlier snapshots.
   */
  lemma SnapshotRenders(direct: bool, mem: RemoteMemory, s: WalkState, egAddr: Addr, pid: int, root: string,
                        data: seq<char>, dataLen: nat, err: seq<char>, errLen: nat)
    requires WalkShaped(s) && s.frame.depth <= MAX_STACK_DEPTH && dataLen <= |data| && errLen <= |err|
    requires ReadRecord(direct, mem, s.aliveCheck, egAddr, mem.executorGlobals).rv == OK || errLen == 0
    ensures var t := DoTraceSpec(direct, mem, s, egAddr);
      var o := SnapshotSpec(direct, mem, s, egAddr, pid, root, data, dataLen, err, errLen);
      t.s.frame.depth <= MAX_STACK_DEPTH &&
      o == var f := FormulateOutputSpec(t.s.frames, t.s.frame.depth, root, data, dataLen, err, errLen);
        SnapshotOut(f.r, t.s, f.data, f.err)
  {
    var t := DoTraceSpec(direct, mem, s, egAddr);
    DoTraceSwallowsWalkErrors(direct, mem, s, egAddr);
    DoTraceLastDepth(direct, mem, s, egAddr);
    ErrorResultSignals(t.rv, pid, err, errLen);
  }

  /**
   * After a walk that handed over w > 0 frames the current depth is w - 1,
   * so the snapshot renders frames w - 2 down to 0: the outermost frame
   * the walk stored is not part of the output.
   */
  lemma SnapshotSkipsOutermost(direct: bool, mem: RemoteMemory, s: WalkState, egAddr: Addr, pid: int, root: string,
                               data: seq<char>, dataLen: nat, err: seq<char>, errLen: nat)
    requires WalkShaped(s) && s.frame.depth <= MAX_STACK_DEPTH && dataLen <= |data| && errLen <= |err|
    requires ReadRecord(direct, mem, s.aliveCheck, egAddr, mem.executorGlobals).rv == OK
    ensures var eg := ReadRecord(direct, mem, s.aliveCheck, egAddr, mem.executorGlobals);
      var w := TraceFrom(direct, mem, s.(aliveCheck := eg.aliveCheck), mem.executorGlobals[egAddr].currentExecuteData, 0);
      var o := SnapshotSpec(direct, mem, s, egAddr, pid, root, data, dataLen, err, errLen);
      w.depth > 0 ==>
        o.r == FormulateOutputSpec(w.s.frames, w.depth - 1, root, data, dataLen, err, errLen).r
  {
    var eg := ReadRecord(direct, mem, s.aliveCheck, egAddr, mem.executorGlobals);
    var s0 := s.(aliveCheck := eg.aliveCheck);
    var remote := mem.executorGlobals[egAddr].currentExecuteData;
    TraceFromLastDepth(direct, mem, s0, remote, 0);
    TraceFromFrames(direct, mem, s0, remote, 0);
    SnapshotRenders(direct, mem, s, egAddr, pid, root, data, dataLen, err, errLen);
    DoTraceSwallowsWalkErrors(direct, mem, s, egAddr);
  }
}
