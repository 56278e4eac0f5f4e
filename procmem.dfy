/**
 * Access to the target process and the process-wide options (phpspy.c):
 * how one copy out of the target is classified, which symbols
 * find_addresses resolves, and which version tag get_php_version derives.
 *
 * The system calls are replaced by a snapshot of the target: whether it
 * still runs, and which typed records are readable at which address.
 */
module ProcMem {
  import opened Defs

  const ADDR_LIMIT: int := 0x1_0000_0000_0000_0000
  /** An address in the target's 64-bit address space. */
  type Addr = a: int | 0 <= a < ADDR_LIMIT
  const NULL: Addr := 0

  const ESRCH: int := 3
  const EIO: int := 5
  const EFAULT: int := 14

  /** The Zend engine records the core copies, cut down to the fields it reads. */
  datatype ExecutorGlobals = ExecutorGlobals(currentExecuteData: Addr)
  datatype ExecuteData = ExecuteData(func: Addr, prevExecuteData: Addr)
  type Uint8 = n: nat | n < 0x100
  type Uint32 = n: nat | n < 0x1_0000_0000

  /** zend_function: `type`, `common.function_name`, `common.scope`, `op_array.filename`, `op_array.line_start`. */
  datatype ZendFunction = ZendFunction(fnType: Uint8, functionName: Addr, scope: Addr, filename: Addr, lineStart: Uint32)
  datatype ClassEntry = ClassEntry(name: Addr)
  /** zend_string: the length its header claims and the payload bytes actually readable behind the header. */
  datatype ZendString = ZendString(len: nat, val: seq<char>)
  datatype ZendArray = ZendArray(nNumOfElements: nat, arData: Addr)
  datatype ModuleEntry = ModuleEntry(version: Addr)

  /**
   * A snapshot of the target process: whether it still exists, and the
   * records readable at each address (an address absent from a map is not
   * mapped). `bucketTables` gives how many buckets are readable at an
   * address, `bytes` the plain bytes readable at an address.
   */
  datatype RemoteMemory = RemoteMemory(
    alive: bool,
    executorGlobals: map<Addr, ExecutorGlobals>,
    executeData: map<Addr, ExecuteData>,
    functions: map<Addr, ZendFunction>,
    classes: map<Addr, ClassEntry>,
    strings: map<Addr, ZendString>,
    arrays: map<Addr, ZendArray>,
    bucketTables: map<Addr, nat>,
    modules: map<Addr, ModuleEntry>,
    bytes: map<Addr, seq<char>>)

  /**
   * process_vm_readv with one local and one remote iovec, returning 0 or the
   * errno: the kernel does not split a single iovec, so a range that is not
   * wholly readable fails as a whole.
   */
  function VmReadv(alive: bool, size: nat, readable: nat): int {
    if !alive then ESRCH else if readable >= size then 0 else EFAULT
  }

  datatype ReadResult = Read(count: nat) | ReadFailed(errno: int)

  /**
   * read(2) on /proc/<pid>/mem after a successful seek: it may stop early at
   * the end of the readable range, and fails only when not one byte can be read.
   */
  function ProcMemRead(alive: bool, size: nat, readable: nat): ReadResult {
    if size == 0 then Read(0)
    else if !alive || readable == 0 then ReadFailed(EIO)
    else Read(Min(size, readable))
  }

  /** lseek(2) to an address fails when the address is negative as an off_t. */
  predicate SeekOk(raddr: Addr) {
    raddr < 0x8000_0000_0000_0000
  }

  /** The status of one copy, the target's liveness-check flag after it, and how many bytes landed in the local buffer. */
  datatype Copied = Copied(rv: Status, aliveCheck: bool, count: nat)

  /** copy_proc_mem_vm_read. */
  function VmReadCopy(alive: bool, aliveCheck: bool, raddr: Addr, size: nat, readable: nat): (c: Copied)
    ensures c.aliveCheck == aliveCheck
    ensures c.rv == OK ==> c.count == size && readable >= size
    ensures c.rv != OK ==> c.count == 0
  {
    if raddr == NULL then Copied(ERR, aliveCheck, 0)
    else
      var errno := VmReadv(alive, size, readable);
      if errno == 0 then Copied(OK, aliveCheck, size)
      else if errno == ESRCH then Copied(ERR | ERR_PID_DEAD, aliveCheck, 0)
      else Copied(ERR, aliveCheck, 0)
  }

  /** copy_proc_mem_direct: stat (once), lseek, read; a short read counts as success. */
  function DirectCopy(alive: bool, aliveCheck: bool, raddr: Addr, size: nat, readable: nat): (c: Copied)
    ensures !c.aliveCheck
    ensures c.rv == OK ==> c.count == Min(size, readable)
    ensures c.rv != OK ==> c.count == 0
  {
    if aliveCheck && !alive then Copied(ERR | ERR_PID_DEAD, false, 0)
    else if !SeekOk(raddr) then Copied(ERR, false, 0)
    else
      match ProcMemRead(alive, size, readable)
      case ReadFailed(_) => Copied(ERR, false, 0)
      case Read(n) => Copied(OK, false, n)
  }

  /** copy_proc_mem: the backend opt_direct_mem selects. */
  function CopyOutcome(direct: bool, mem: RemoteMemory, aliveCheck: bool, raddr: Addr, size: nat, readable: nat): (c: Copied)
    ensures c.rv in {OK, ERR, ERR | ERR_PID_DEAD}
    ensures c.rv == OK ==> c.count <= Min(size, readable) && (c.count == size <==> readable >= size)
    ensures c.rv != OK ==> c.count == 0
  {
    if direct then DirectCopy(mem.alive, aliveCheck, raddr, size, readable)
    else VmReadCopy(mem.alive, aliveCheck, raddr, size, readable)
  }

  /** The vm backend: NULL is refused without a copy, ESRCH means the target died, anything else is a plain error. */
  lemma VmReadClassification(alive: bool, aliveCheck: bool, raddr: Addr, size: nat, readable: nat)
    ensures var c := VmReadCopy(alive, aliveCheck, raddr, size, readable);
      && c.aliveCheck == aliveCheck
      && (raddr == NULL ==> c.rv == ERR)
      && (raddr != NULL && !alive ==> c.rv == ERR | ERR_PID_DEAD)
      && (raddr != NULL && alive ==> (c.rv == OK <==> readable >= size))
      && (raddr != NULL && alive && readable < size ==> c.rv == ERR)
      && (c.rv == OK ==> c.count == size)
  {
  }

  /**
   * The direct backend: the liveness check runs only while the flag is set
   * and always clears it; seek and read failures are plain errors; a short
   * read is reported as success with fewer bytes.
   */
  lemma DirectClassification(alive: bool, aliveCheck: bool, raddr: Addr, size: nat, readable: nat)
    ensures var c := DirectCopy(alive, aliveCheck, raddr, size, readable);
      && !c.aliveCheck
      && (c.rv == ERR | ERR_PID_DEAD <==> aliveCheck && !alive)
      && (!(aliveCheck && !alive) && !SeekOk(raddr) ==> c.rv == ERR)
      && (c.rv == OK <==> (!aliveCheck || alive) && SeekOk(raddr) && (size == 0 || (alive && readable > 0)))
      && (c.rv == OK ==> c.count == Min(size, readable))
  {
  }

  /** Two consecutive direct copies: the second can no longer report a dead target. */
  lemma DirectAliveCheckOnce(alive: bool, aliveCheck: bool, a1: Addr, s1: nat, r1: nat, a2: Addr, s2: nat, r2: nat)
    ensures var c1 := DirectCopy(alive, aliveCheck, a1, s1, r1);
      var c2 := DirectCopy(alive, c1.aliveCheck, a2, s2, r2);
      c2.rv != ERR | ERR_PID_DEAD
  {
  }

  /** The result of copying one typed record. */
  datatype Fetched<T> = Fetched(rv: Status, aliveCheck: bool, value: Option<T>)

  /**
   * Copying a record out of `records`: records are copied whole or not at
   * all (a record is one unit of size), so both backends succeed only on a
   * mapped address.
   */
  function ReadRecord<T>(direct: bool, mem: RemoteMemory, aliveCheck: bool, raddr: Addr, records: map<Addr, T>): (f: Fetched<T>)
    ensures f.rv in {OK, ERR, ERR | ERR_PID_DEAD}
    ensures f.rv == OK <==> f.value.Some?
    ensures f.value.Some? ==> raddr in records && f.value.value == records[raddr]
  {
    var c := CopyOutcome(direct, mem, aliveCheck, raddr, 1, if raddr in records then 1 else 0);
    Fetched(c.rv, c.aliveCheck, if c.rv == OK then Some(records[raddr]) else None)
  }

  /** When a record copy succeeds, in terms of the target and the address. */
  lemma ReadRecordSucceeds<T>(direct: bool, mem: RemoteMemory, aliveCheck: bool, raddr: Addr, records: map<Addr, T>)
    ensures var f := ReadRecord(direct, mem, aliveCheck, raddr, records);
      f.rv == OK <==>
        raddr in records && mem.alive &&
        (if direct then SeekOk(raddr) else raddr != NULL)
  {
  }

  /**
   * trace_target_t, with the fields find_addresses and copy_proc_mem_direct
   * use although the header's struct lacks them (sapi and alloc globals
   * addresses, the liveness-check flag).
   */
  class Target {
    var pid: int
    var memFd: int
    var executorGlobalsAddr: Addr
    var sapiGlobalsAddr: Addr
    var allocGlobalsAddr: Addr
    var basicFunctionsModuleAddr: Addr
    var memFdAliveCheck: bool

    /** A zeroed target, as calloc leaves it. */
    constructor ()
      ensures pid == 0 && memFd == 0 && !memFdAliveCheck
      ensures executorGlobalsAddr == 0 && sapiGlobalsAddr == 0 && allocGlobalsAddr == 0 && basicFunctionsModuleAddr == 0
    {
      pid, memFd := 0, 0;
      executorGlobalsAddr, sapiGlobalsAddr, allocGlobalsAddr, basicFunctionsModuleAddr := 0, 0, 0, 0;
      memFdAliveCheck := false;
    }

    ghost function Addresses(): AddressSet
      reads this
    {
      AddressSet(executorGlobalsAddr, sapiGlobalsAddr, allocGlobalsAddr, basicFunctionsModuleAddr)
    }

    /** copy_proc_mem_vm_read: one process_vm_readv of `size` bytes, `readable` of which are mapped. */
    method CopyProcMemVmRead(mem: RemoteMemory, raddr: Addr, size: nat, readable: nat) returns (rv: Rv, count: nat)
      ensures Copied(rv.code, memFdAliveCheck, count) == VmReadCopy(mem.alive, memFdAliveCheck, raddr, size, readable)
    {
      if raddr == NULL {
        return Rv(ERR), 0;
      }
      var errno := VmReadv(mem.alive, size, readable);
      if errno != 0 {
        if errno == ESRCH {
          return Rv(ERR | ERR_PID_DEAD), 0;
        }
        return Rv(ERR), 0;
      }
      return Rv(OK), size;
    }

    /** copy_proc_mem_direct: the once-only stat, then lseek and read on the open /proc/<pid>/mem. */
    method CopyProcMemDirect(mem: RemoteMemory, raddr: Addr, size: nat, readable: nat) returns (rv: Rv, count: nat)
      modifies this`memFdAliveCheck
      ensures Copied(rv.code, memFdAliveCheck, count) == DirectCopy(mem.alive, old(memFdAliveCheck), raddr, size, readable)
    {
      if memFdAliveCheck {
        memFdAliveCheck := false;
        if !mem.alive {
          return Rv(ERR | ERR_PID_DEAD), 0;
        }
      }
      memFdAliveCheck := false;
      if !SeekOk(raddr) {
        return Rv(ERR), 0;
      }
      var r := ProcMemRead(mem.alive, size, readable);
      if r.ReadFailed? {
        return Rv(ERR), 0;
      }
      return Rv(OK), r.count;
    }

    /** copy_proc_mem. */
    method CopyProcMem(direct: bool, mem: RemoteMemory, raddr: Addr, size: nat, readable: nat) returns (rv: Rv, count: nat)
      modifies this`memFdAliveCheck
      ensures Copied(rv.code, memFdAliveCheck, count) == CopyOutcome(direct, mem, old(memFdAliveCheck), raddr, size, readable)
    {
      if direct {
        rv, count := CopyProcMemDirect(mem, raddr, size, readable);
      } else {
        rv, count := CopyProcMemVmRead(mem, raddr, size, readable);
      }
    }

    /** Copies one whole record; see ReadRecord. */
    method CopyRecord<T>(direct: bool, mem: RemoteMemory, raddr: Addr, records: map<Addr, T>) returns (rv: Rv, value: Option<T>)
      modifies this`memFdAliveCheck
      ensures Fetched(rv.code, memFdAliveCheck, value) == ReadRecord(direct, mem, old(memFdAliveCheck), raddr, records)
    {
      var count;
      rv, count := CopyProcMem(direct, mem, raddr, 1, if raddr in records then 1 else 0);
      value := if rv.code == OK then Some(records[raddr]) else None;
    }
  }

  /** The four symbol addresses find_addresses fills in. */
  datatype AddressSet = AddressSet(executorGlobals: Addr, sapiGlobals: Addr, allocGlobals: Addr, basicFunctionsModule: Addr)

  /** The resolver's (get_symbol_addr's) answer for a symbol: a status and the address it stored. */
  datatype SymbolAnswer = SymbolAnswer(rv: Status, addr: Addr)

  /** One resolver call: the symbol asked for and whether error logging was on meanwhile. */
  datatype Lookup = Lookup(symbol: string, logging: bool)

  /** What find_addresses leaves behind: its status, the addresses, the logging flag and the calls it made. */
  datatype Located = Located(rv: Status, addrs: AddressSet, logging: bool, lookups: seq<Lookup>)

  const EXECUTOR_GLOBALS: string := "executor_globals"
  const SAPI_GLOBALS: string := "sapi_globals"
  const ALLOC_GLOBALS: string := "alloc_globals"
  const BASIC_FUNCTIONS_MODULE: string := "basic_functions_module"

  /** One resolver call of find_addresses, with the logging flag of the moment. */
  function Asking(prev: Located, symbol: string): seq<Lookup> {
    prev.lookups + [Lookup(symbol, prev.logging)]
  }

  /** executor_globals: the override, or the resolver. */
  function LocateExecutorGlobals(optEg: Addr, logging: bool, resolve: string -> SymbolAnswer, t: AddressSet): Located {
    var start := Located(OK, t, logging, []);
    if optEg != 0 then start.(addrs := t.(executorGlobals := optEg))
    else
      var a := resolve(EXECUTOR_GLOBALS);
      Located(a.rv, t.(executorGlobals := a.addr), logging, Asking(start, EXECUTOR_GLOBALS))
  }

  /** sapi_globals: the override, or the resolver when request capture is on. */
  function LocateSapiGlobals(prev: Located, optSapi: Addr, captureReq: bool, resolve: string -> SymbolAnswer): Located {
    if prev.rv != OK then prev
    else if optSapi != 0 then prev.(addrs := prev.addrs.(sapiGlobals := optSapi))
    else if captureReq then
      var a := resolve(SAPI_GLOBALS);
      Located(a.rv, prev.addrs.(sapiGlobals := a.addr), prev.logging, Asking(prev, SAPI_GLOBALS))
    else prev
  }

  /** alloc_globals: the resolver when memory capture is on. */
  function LocateAllocGlobals(prev: Located, captureMem: bool, resolve: string -> SymbolAnswer): Located {
    if prev.rv != OK then prev
    else if captureMem then
      var a := resolve(ALLOC_GLOBALS);
      Located(a.rv, prev.addrs.(allocGlobals := a.addr), prev.logging, Asking(prev, ALLOC_GLOBALS))
    else prev
  }

  /** basic_functions_module: resolved with logging off; a failure zeroes the address; logging on and OK afterwards. */
  function LocateBasicFunctions(prev: Located, resolve: string -> SymbolAnswer): Located {
    if prev.rv != OK then prev
    else
      var b := resolve(BASIC_FUNCTIONS_MODULE);
      Located(OK, prev.addrs.(basicFunctionsModule := if b.rv != OK then 0 else b.addr), true,
              prev.lookups + [Lookup(BASIC_FUNCTIONS_MODULE, false)])
  }

  /** find_addresses as a whole. */
  function Locate(optEg: Addr, optSapi: Addr, captureReq: bool, captureMem: bool, logging: bool,
                  resolve: string -> SymbolAnswer, t: AddressSet): (l: Located)
    ensures l.rv == OK ==> l.logging && |l.lookups| >= 1 && l.lookups[|l.lookups| - 1] == Lookup(BASIC_FUNCTIONS_MODULE, false)
    ensures |l.lookups| <= 4
  {
    var l1 := LocateExecutorGlobals(optEg, logging, resolve, t);
    var l2 := LocateSapiGlobals(l1, optSapi, captureReq, resolve);
    var l3 := LocateAllocGlobals(l2, captureMem, resolve);
    LocateBasicFunctions(l3, resolve)
  }

  predicate Asked(ls: seq<Lookup>, symbol: string) {
    exists i :: 0 <= i < |ls| && ls[i].symbol == symbol
  }

  lemma AskedAppend(ls: seq<Lookup>, l: Lookup, symbol: string)
    ensures Asked(ls + [l], symbol) <==> Asked(ls, symbol) || l.symbol == symbol
  {
    if Asked(ls, symbol) {
      var i :| 0 <= i < |ls| && ls[i].symbol == symbol;
      assert (ls + [l])[i] == ls[i];
    }
    if l.symbol == symbol {
      assert (ls + [l])[|ls|] == l;
    }
  }

  /** executor_globals: an override is used as is; else it is resolved first and a failure aborts with the resolver's status. */
  lemma {:induction false} LocateUsesExecutorGlobals(optEg: Addr, optSapi: Addr, captureReq: bool, captureMem: bool, logging: bool,
                                                     resolve: string -> SymbolAnswer, t: AddressSet)
    ensures var l := Locate(optEg, optSapi, captureReq, captureMem, logging, resolve, t);
      && (optEg != 0 ==> l.addrs.executorGlobals == optEg && !Asked(l.lookups, EXECUTOR_GLOBALS))
      && (optEg == 0 ==> |l.lookups| >= 1 && l.lookups[0] == Lookup(EXECUTOR_GLOBALS, logging)
                          && l.addrs.executorGlobals == resolve(EXECUTOR_GLOBALS).addr)
      && (optEg == 0 && resolve(EXECUTOR_GLOBALS).rv != OK ==>
            l.rv == resolve(EXECUTOR_GLOBALS).rv && l.lookups == [Lookup(EXECUTOR_GLOBALS, logging)])
  {
    var l1 := LocateExecutorGlobals(optEg, logging, resolve, t);
    var l2 := LocateSapiGlobals(l1, optSapi, captureReq, resolve);
    var l3 := LocateAllocGlobals(l2, captureMem, resolve);
    var l4 := LocateBasicFunctions(l3, resolve);
    assert l1.lookups <= l2.lookups <= l3.lookups <= l4.lookups;
    if optEg != 0 {
      assert l1.lookups == [];
      AskedAppend(l1.lookups, Lookup(SAPI_GLOBALS, logging), EXECUTOR_GLOBALS);
      AskedAppend(l2.lookups, Lookup(ALLOC_GLOBALS, logging), EXECUTOR_GLOBALS);
      AskedAppend(l3.lookups, Lookup(BASIC_FUNCTIONS_MODULE, false), EXECUTOR_GLOBALS);
    }
  }

  /**
   * sapi_globals is asked for only without an override and with request
   * capture on, alloc_globals only with memory capture on; a failure of
   * either aborts with its status before basic_functions_module is tried.
   */
  lemma {:induction false} LocateOptionalSymbols(optEg: Addr, optSapi: Addr, captureReq: bool, captureMem: bool, logging: bool,
                                                 resolve: string -> SymbolAnswer, t: AddressSet)
    requires optEg != 0 || resolve(EXECUTOR_GLOBALS).rv == OK
    ensures var l := Locate(optEg, optSapi, captureReq, captureMem, logging, resolve, t);
      var sapiFails := optSapi == 0 && captureReq && resolve(SAPI_GLOBALS).rv != OK;
      && (Asked(l.lookups, SAPI_GLOBALS) <==> optSapi == 0 && captureReq)
      && (optSapi != 0 ==> l.addrs.sapiGlobals == optSapi)
      && (sapiFails ==> l.rv == resolve(SAPI_GLOBALS).rv && !Asked(l.lookups, BASIC_FUNCTIONS_MODULE))
      && (!sapiFails ==> (Asked(l.lookups, ALLOC_GLOBALS) <==> captureMem))
      && (!sapiFails && captureMem && resolve(ALLOC_GLOBALS).rv != OK ==>
            l.rv == resolve(ALLOC_GLOBALS).rv && !Asked(l.lookups, BASIC_FUNCTIONS_MODULE))
  {
    var l1 := LocateExecutorGlobals(optEg, logging, resolve, t);
    var l2 := LocateSapiGlobals(l1, optSapi, captureReq, resolve);
    var l3 := LocateAllocGlobals(l2, captureMem, resolve);
    var l4 := LocateBasicFunctions(l3, resolve);
    var syms := [EXECUTOR_GLOBALS, SAPI_GLOBALS, ALLOC_GLOBALS, BASIC_FUNCTIONS_MODULE];
    assert forall i, j :: 0 <= i < j < 4 ==> syms[i] != syms[j];
    assert forall k :: 0 <= k < |l1.lookups| ==> l1.lookups[k].symbol == EXECUTOR_GLOBALS;
    assert !Asked(l1.lookups, SAPI_GLOBALS) && !Asked(l1.lookups, ALLOC_GLOBALS) && !Asked(l1.lookups, BASIC_FUNCTIONS_MODULE);
    if l2.lookups != l1.lookups {
      assert l2.lookups == l1.lookups + [Lookup(SAPI_GLOBALS, logging)];
      AskedAppend(l1.lookups, Lookup(SAPI_GLOBALS, logging), SAPI_GLOBALS);
      AskedAppend(l1.lookups, Lookup(SAPI_GLOBALS, logging), ALLOC_GLOBALS);
      AskedAppend(l1.lookups, Lookup(SAPI_GLOBALS, logging), BASIC_FUNCTIONS_MODULE);
    }
    if l3.lookups != l2.lookups {
      assert l3.lookups == l2.lookups + [Lookup(ALLOC_GLOBALS, logging)];
      AskedAppend(l2.lookups, Lookup(ALLOC_GLOBALS, logging), SAPI_GLOBALS);
      AskedAppend(l2.lookups, Lookup(ALLOC_GLOBALS, logging), ALLOC_GLOBALS);
      AskedAppend(l2.lookups, Lookup(ALLOC_GLOBALS, logging), BASIC_FUNCTIONS_MODULE);
    }
    if l4.lookups != l3.lookups {
      assert l4.lookups == l3.lookups + [Lookup(BASIC_FUNCTIONS_MODULE, false)];
      AskedAppend(l3.lookups, Lookup(BASIC_FUNCTIONS_MODULE, false), SAPI_GLOBALS);
      AskedAppend(l3.lookups, Lookup(BASIC_FUNCTIONS_MODULE, false), ALLOC_GLOBALS);
      AskedAppend(l3.lookups, Lookup(BASIC_FUNCTIONS_MODULE, false), BASIC_FUNCTIONS_MODULE);
    }
  }

  /**
   * basic_functions_module is looked up last, with logging off; its failure
   * zeroes the address and is not fatal; logging is back on and the status
   * is OK exactly when the required symbols were found.
   */
  lemma {:induction false} LocateBasicFunctionsNonFatal(optEg: Addr, optSapi: Addr, captureReq: bool, captureMem: bool, logging: bool,
                                                        resolve: string -> SymbolAnswer, t: AddressSet)
    ensures var l := Locate(optEg, optSapi, captureReq, captureMem, logging, resolve, t);
      var required := (optEg != 0 || resolve(EXECUTOR_GLOBALS).rv == OK)
        && (!(optSapi == 0 && captureReq) || resolve(SAPI_GLOBALS).rv == OK)
        && (!captureMem || resolve(ALLOC_GLOBALS).rv == OK);
      var bf := resolve(BASIC_FUNCTIONS_MODULE);
      && (l.rv == OK <==> required)
      && (required ==> l.logging && |l.lookups| >= 1 && l.lookups[|l.lookups| - 1] == Lookup(BASIC_FUNCTIONS_MODULE, false))
      && (required ==> l.addrs.basicFunctionsModule == if bf.rv != OK then 0 else bf.addr)
      && (!required ==> l.logging == logging && l.addrs.basicFunctionsModule == t.basicFunctionsModule)
      && (forall i :: 0 <= i < |l.lookups| - 1 ==> l.lookups[i].logging == logging)
  {
    var l1 := LocateExecutorGlobals(optEg, logging, resolve, t);
    var l2 := LocateSapiGlobals(l1, optSapi, captureReq, resolve);
    var l3 := LocateAllocGlobals(l2, captureMem, resolve);
    assert forall i :: 0 <= i < |l3.lookups| ==> l3.lookups[i].logging == logging;
  }

  /** The "X.Y" versions the walker knows. */
  const KNOWN_VERSIONS: seq<string> := ["7.0", "7.1", "7.2", "7.3", "7.4", "8.0", "8.1", "8.2", "8.3"]
  /** The tags initialize dispatches on. */
  const KNOWN_TAGS: seq<string> := ["70", "71", "72", "73", "74", "80", "81", "82", "83"]

  /** strncmp(phpv, v, 3) == 0 for a three-character literal `v`. */
  predicate SameFirstThree(phpv: seq<char>, v: string)
    requires |v| == 3
  {
    |phpv| >= 3 && phpv[..3] == v
  }

  /** The tag chain at the end of get_php_version. */
  function PhpVersionTag(phpv: seq<char>): (tag: Option<string>)
    ensures tag.Some? <==> |phpv| >= 3 && phpv[..3] in KNOWN_VERSIONS
    ensures tag.Some? ==> tag.value == [phpv[0], phpv[2]] && tag.value in KNOWN_TAGS
  {
    if SameFirstThree(phpv, "7.0") then Some("70")
    else if SameFirstThree(phpv, "7.1") then Some("71")
    else if SameFirstThree(phpv, "7.2") then Some("72")
    else if SameFirstThree(phpv, "7.3") then Some("73")
    else if SameFirstThree(phpv, "7.4") then Some("74")
    else if SameFirstThree(phpv, "8.0") then Some("80")
    else if SameFirstThree(phpv, "8.1") then Some("81")
    else if SameFirstThree(phpv, "8.2") then Some("82")
    else if SameFirstThree(phpv, "8.3") then Some("83")
    else None
  }

  /** Each known version goes to its own tag, in order, whatever follows the three characters. */
  lemma {:induction false} VersionTagTable(k: nat, suffix: seq<char>)
    requires k < |KNOWN_VERSIONS|
    ensures PhpVersionTag(KNOWN_VERSIONS[k] + suffix) == Some(KNOWN_TAGS[k])
  {
    var v := KNOWN_VERSIONS[k] + suffix;
    assert v[..3] == KNOWN_VERSIONS[k];
  }

  /** Options of phpspy.c the core reads or writes: overrides, capture switches, the version, the reader backend, logging. */
  class Options {
    var executorGlobalsAddr: Addr
    var sapiGlobalsAddr: Addr
    var captureReq: bool
    var captureMem: bool
    var phpv: string
    var directMem: bool
    var libnameAwkPattern: string
    var logErrorEnabled: bool

    /** The initial values of the globals. */
    constructor ()
      ensures executorGlobalsAddr == 0 && sapiGlobalsAddr == 0 && !captureReq && !captureMem
      ensures phpv == "auto" && !directMem && libnameAwkPattern == "libphp[78]?" && logErrorEnabled
    {
      executorGlobalsAddr, sapiGlobalsAddr := 0, 0;
      captureReq, captureMem := false, false;
      phpv := "auto";
      directMem := false;
      libnameAwkPattern := "libphp[78]?";
      logErrorEnabled := true;
    }
  }

  /**
   * find_addresses: fills the target's symbol addresses and toggles the
   * logging flag around the basic_functions_module lookup.
   */
  method FindAddresses(opts: Options, target: Target, resolve: string -> SymbolAnswer) returns (rv: Rv, ghost lookups: seq<Lookup>)
    modifies opts`logErrorEnabled
    modifies target`executorGlobalsAddr, target`sapiGlobalsAddr, target`allocGlobalsAddr, target`basicFunctionsModuleAddr
    ensures Located(rv.code, target.Addresses(), opts.logErrorEnabled, lookups) ==
      Locate(opts.executorGlobalsAddr, opts.sapiGlobalsAddr, opts.captureReq, opts.captureMem,
             old(opts.logErrorEnabled), resolve, old(target.Addresses()))
  {
    ghost var l1 := LocateExecutorGlobals(opts.executorGlobalsAddr, opts.logErrorEnabled, resolve, target.Addresses());
    ghost var l2 := LocateSapiGlobals(l1, opts.sapiGlobalsAddr, opts.captureReq, resolve);
    ghost var l3 := LocateAllocGlobals(l2, opts.captureMem, resolve);
    rv, lookups := FindRequired(opts, target, resolve);
    assert Located(rv.code, target.Addresses(), opts.logErrorEnabled, lookups) == l3;
    if rv.IsFailure() {
      return;
    }
    opts.logErrorEnabled := false;
    var b := resolve(BASIC_FUNCTIONS_MODULE);
    lookups := lookups + [Lookup(BASIC_FUNCTIONS_MODULE, opts.logErrorEnabled)];
    target.basicFunctionsModuleAddr := b.addr;
    if b.rv != OK {
      target.basicFunctionsModuleAddr := 0;
    }
    opts.logErrorEnabled := true;
    return Rv(OK), lookups;
  }

  /** The first three steps of find_addresses: the symbols whose failure is fatal. */
  method FindRequired(opts: Options, target: Target, resolve: string -> SymbolAnswer) returns (rv: Rv, ghost lookups: seq<Lookup>)
    modifies target`executorGlobalsAddr, target`sapiGlobalsAddr, target`allocGlobalsAddr
    ensures Located(rv.code, target.Addresses(), opts.logErrorEnabled, lookups) ==
      LocateAllocGlobals(
        LocateSapiGlobals(
          LocateExecutorGlobals(opts.executorGlobalsAddr, opts.logErrorEnabled, resolve, old(target.Addresses())),
          opts.sapiGlobalsAddr, opts.captureReq, resolve),
        opts.captureMem, resolve)
  {
    rv, lookups := FindExecutorGlobals(opts, target, resolve);
    if rv.IsFailure() {
      return;
    }
    rv, lookups := FindSapiGlobals(opts, target, resolve, lookups);
    if rv.IsFailure() {
      return;
    }
    rv, lookups := FindAllocGlobals(opts, target, resolve, lookups);
  }

  /** The executor_globals step of find_addresses. */
  method FindExecutorGlobals(opts: Options, target: Target, resolve: string -> SymbolAnswer) returns (rv: Rv, ghost lookups: seq<Lookup>)
    modifies target`executorGlobalsAddr
    ensures Located(rv.code, target.Addresses(), opts.logErrorEnabled, lookups) ==
      LocateExecutorGlobals(opts.executorGlobalsAddr, opts.logErrorEnabled, resolve, old(target.Addresses()))
  {
    lookups := [];
    if opts.executorGlobalsAddr != 0 {
      target.executorGlobalsAddr := opts.executorGlobalsAddr;
      return Rv(OK), lookups;
    }
    var a := resolve(EXECUTOR_GLOBALS);
    lookups := [Lookup(EXECUTOR_GLOBALS, opts.logErrorEnabled)];
    target.executorGlobalsAddr := a.addr;
    return Rv(a.rv), lookups;
  }

  /** The sapi_globals step of find_addresses, after a successful first step. */
  method FindSapiGlobals(opts: Options, target: Target, resolve: string -> SymbolAnswer, ghost before: seq<Lookup>)
    returns (rv: Rv, ghost lookups: seq<Lookup>)
    modifies target`sapiGlobalsAddr
    ensures Located(rv.code, target.Addresses(), opts.logErrorEnabled, lookups) ==
      LocateSapiGlobals(Located(OK, old(target.Addresses()), opts.logErrorEnabled, before), opts.sapiGlobalsAddr, opts.captureReq, resolve)
  {
    lookups := before;
    if opts.sapiGlobalsAddr != 0 {
      target.sapiGlobalsAddr := opts.sapiGlobalsAddr;
    } else if opts.captureReq {
      var a := resolve(SAPI_GLOBALS);
      lookups := before + [Lookup(SAPI_GLOBALS, opts.logErrorEnabled)];
      target.sapiGlobalsAddr := a.addr;
      return Rv(a.rv), lookups;
    }
    return Rv(OK), lookups;
  }

  /** The alloc_globals step of find_addresses, after two successful steps. */
  method FindAllocGlobals(opts: Options, target: Target, resolve: string -> SymbolAnswer, ghost before: seq<Lookup>)
    returns (rv: Rv, ghost lookups: seq<Lookup>)
    modifies target`allocGlobalsAddr
    ensures Located(rv.code, target.Addresses(), opts.logErrorEnabled, lookups) ==
      LocateAllocGlobals(Located(OK, old(target.Addresses()), opts.logErrorEnabled, before), opts.captureMem, resolve)
  {
    lookups := before;
    if opts.captureMem {
      var a := resolve(ALLOC_GLOBALS);
      lookups := before + [Lookup(ALLOC_GLOBALS, opts.logErrorEnabled)];
      target.allocGlobalsAddr := a.addr;
      return Rv(a.rv), lookups;
    }
    return Rv(OK), lookups;
  }

  /** Number of version bytes get_php_version reads from the target or the shell pipeline. */
  const VERSION_BYTES: nat := 3

  /**
   * The three version bytes get_php_version copies out of the target: from
   * the basic_functions_module record when its address is known (the status
   * of the second copy is ignored, a direct short read keeps what it got),
   * else three NULs. Also the liveness flag afterwards.
   */
  function TargetVersionBytes(direct: bool, mem: RemoteMemory, aliveCheck: bool, moduleAddr: Addr): (v: (seq<char>, bool))
    ensures |v.0| == VERSION_BYTES
  {
    var start := [NUL, NUL, NUL];
    if moduleAddr == 0 then (start, aliveCheck)
    else
      var m := ReadRecord(direct, mem, aliveCheck, moduleAddr, mem.modules);
      if m.rv != OK then (start, m.aliveCheck)
      else
        var vaddr := m.value.value.version;
        var avail := if vaddr in mem.bytes then mem.bytes[vaddr] else [];
        var c := CopyOutcome(direct, mem, m.aliveCheck, vaddr, VERSION_BYTES, |avail|);
        (if c.rv == OK then avail[..c.count] + start[c.count..] else start, c.aliveCheck)
  }

  /**
   * The version bytes get_php_version ends up with: the target's, or, while
   * their first byte is still NUL, the shell pipeline's (`probe`, None when
   * any step of it fails).
   */
  function VersionBytes(direct: bool, mem: RemoteMemory, aliveCheck: bool, moduleAddr: Addr,
                        probe: Option<seq<char>>): (Option<seq<char>>, bool)
  {
    var (fromTarget, alive2) := TargetVersionBytes(direct, mem, aliveCheck, moduleAddr);
    if fromTarget[0] != NUL then (Some(fromTarget), alive2)
    else if probe.Some? && |probe.value| == VERSION_BYTES then (probe, alive2)
    else (None, alive2)
  }

  /** The copies out of the target that get_php_version starts with. */
  method ReadTargetVersion(target: Target, direct: bool, mem: RemoteMemory) returns (phpv: seq<char>)
    modifies target`memFdAliveCheck
    ensures (phpv, target.memFdAliveCheck) ==
      TargetVersionBytes(direct, mem, old(target.memFdAliveCheck), target.basicFunctionsModuleAddr)
  {
    phpv := [NUL, NUL, NUL];
    if target.basicFunctionsModuleAddr != 0 {
      var r, m := target.CopyRecord(direct, mem, target.basicFunctionsModuleAddr, mem.modules);
      if r.code == OK {
        var vaddr := m.value.version;
        var avail := if vaddr in mem.bytes then mem.bytes[vaddr] else [];
        var r2, count := target.CopyProcMem(direct, mem, vaddr, VERSION_BYTES, |avail|);
        if r2.code == OK {
          phpv := avail[..count] + phpv[count..];
        }
      }
    }
  }

  /**
   * get_php_version: on a recognised version the option becomes its tag and
   * the status is OK; otherwise the status is ERR and the option is kept.
   */
  method GetPhpVersion(opts: Options, target: Target, direct: bool, mem: RemoteMemory, probe: Option<seq<char>>) returns (rv: Rv)
    modifies opts`phpv, target`memFdAliveCheck
    ensures var (phpv, alive2) := VersionBytes(direct, mem, old(target.memFdAliveCheck), target.basicFunctionsModuleAddr, probe);
      && target.memFdAliveCheck == alive2
      && (rv.code == OK <==> phpv.Some? && PhpVersionTag(phpv.value).Some?)
      && (rv.code != OK ==> rv.code == ERR && opts.phpv == old(opts.phpv))
      && (rv.code == OK ==> opts.phpv == PhpVersionTag(phpv.value).value)
  {
    var phpv := ReadTargetVersion(target, direct, mem);
    if phpv[0] == NUL {
      if probe.None? || |probe.value| != VERSION_BYTES {
        return Rv(ERR);
      }
      phpv := probe.value;
    }
    var tag := PhpVersionTag(phpv);
    if tag.None? {
      return Rv(ERR);
    }
    opts.phpv := tag.value;
    return Rv(OK);
  }
}
