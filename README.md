# phpspy core for the pyroscope PHP integration, in Dafny

This project models the part of phpspy that the pyroscope PHP integration
embeds, and proves properties about that model. phpspy samples the call
stack of a running PHP process from outside, by copying the interpreter's
records out of the target's memory.

The model covers five parts:

- **Registry and API** (`pyroscope_api.c`):
  - the `first_ctx` list of per-pid sessions, with `allocate_context`, `deallocate_context` and `find_matching_context`;
  - `phpspy_init_spy`, `phpspy_init_pid`, `phpspy_snapshot` and `phpspy_cleanup`;
  - `initialize`, which detects the version, picks a walker, opens the memory file and finds the addresses.
- **Output** (`pyroscope_api.c`):
  - `event_handler`, which stores each frame at its depth;
  - `formulate_error_msg`, which maps a status to a message;
  - `formulate_output`, which renders the frames as `file:line - Class::func;` text inside a capacity check.
- **Stack walker** (`phpspy_trace.c`):
  - `do_trace` and `trace_stack` walk the `prev_execute_data` chain, up to 64 frames.
  - Each frame is decoded into function, class, file and line; the walk stops at NULL, at the bound, or at the first failure.
  - `sprint_zstring` copies a length-prefixed remote string, clamped to its destination.
  - `sprint_zarray` renders array buckets, visiting at most 128 of them.
- **Target access** (`phpspy.c`):
  - `copy_proc_mem` and its two back ends, which classify a copy's failure as ERR, or ERR with PID_DEAD when the target is gone;
  - `find_addresses`, which decides which symbols are required and which is optional, and toggles logging;
  - the version-tag chain of `get_php_version`;
  - `phpspy_zend_inline_hash_func`, the DJBX33A hash.
- **Shared definitions** (`phpspy.h`): the status bits, `try`, `PHPSPY_MIN`/`PHPSPY_MAX`, `MAX_STACK_DEPTH` and the frame layout.

## How the model is built

Modules follow the source files:

| module | file | contents |
|---|---|---|
| `Defs` | `defs.dfy` | the shared definitions of `phpspy.h` |
| `CFormat` | `cformat.dfy` | the C library behaviour the code relies on: `%s` stops at the first NUL, snprintf writes at most `size - 1` bytes, `%u`/`%d` give decimal digits, strtok_r gives tokens |
| `ProcMem` | `procmem.dfy` | target access of `phpspy.c` |
| `ZendHash` | `zendhash.dfy` | the hash |
| `Trace` | `trace.dfy` | the walker of `phpspy_trace.c`, together with pyroscope's `event_handler` |
| `Output` | `output.dfy` | the two formatters of `pyroscope_api.c` |
| `Api` | `api.dfy` | the registry and the four entry points |

`event_handler` sits in `Trace` because the walker calls it through the context.

Remote memory is a snapshot of the target: whether the process still exists, plus, for each record kind, a map from address to record. A copy succeeds or fails as the system call would on that snapshot:

- `process_vm_readv` does not split its single iovec, so a partly mapped range fails as a whole;
- `read` on `/proc/<pid>/mem` may return fewer bytes than asked for.

Mutable C state is kept as mutable Dafny state:

- the context, its frame buffers and the session's frame array are a class with `array` fields;
- each copy into a frame buffer is a method proved against a function of the old state;
- the registry is a class whose `first`/`next` pointers are patched as the C code patches them, with the list order given by a ghost sequence `contexts`.

Outside input is passed in as parameters:

- the target's memory;
- the answer of `readlink`;
- the outcome of `open`;
- the symbol resolver;
- the result of the shell pipeline that `get_php_version` falls back to.

`formulate_output` is modelled twice. `Output.FormulateOutputSpec` is the code as written: every snprintf is given the whole of `data_len`, and the check is `written > data_len`. `Output.FormulateOutputCorrected` passes the room that is left and refuses a rendering that leaves no byte for the NUL. The entry points (`Api.SnapshotSpec`, `Api.Session.Sample`, `Api.Registry.Snapshot`) use the as-written formatter. `Output.AsWrittenBelowCapacity` proves the two agree whenever the rendering is shorter than `data_len`; Findings lists where they part.

### Where the code and its tests differ

The integration tests in `tests/pyroscope_api/pyroscope_api_tests.cpp` call an older entry point, `phpspy_init`. They differ from the code in two places and agree with it in one; the model follows the code:

- `tests/pyroscope_api/pyroscope_api_tests.cpp:72-88` expects the 51st init to fail with "Exceeded maximum allowed number of processes: 50". `phpspy_init_pid` has no cap and no such message; every call appends a session (`Api.Registry.AllocateContext`, `Api.Registry.InitPid`).
- `tests/pyroscope_api/pyroscope_api_tests.cpp:90-97` expects a second init of the same pid to succeed, followed by two cleanups. This agrees with the code: a second session with the same pid is appended, `find_matching_context` answers the first one, and each cleanup removes the first match (`Api.FirstWithPidAppend`, `Api.Registry.Cleanup`).
- `tests/pyroscope_api/pyroscope_api_tests.cpp:35,43,186-188` expect `"; "` after each frame. `formulate_output` writes `";"` with no space (`Output.CallPart`).

## Model

| member | source | states |
|---|---|---|
| Defs.StatusBitsDistinct | phpspy.h:54-57 | OK carries no bit, ERR/PID_DEAD/BUF_FULL are disjoint bits, and ERR combined with either flag keeps both recoverable and not the other flag |
| Defs.Min | phpspy.h:48 | the result is one of the arguments and no larger than either |
| Defs.Max | phpspy.h:49 | the result is one of the arguments and no smaller than either |
| Defs.Zeroes | pyroscope_api.c:34 | a calloc'ed buffer of n bytes is n NULs |
| Defs.ZeroFrame | phpspy.h:70-83 | a zeroed frame has three 256-byte buffers that read as empty, zero lengths, line 0 and depth 0 |
| CFormat.CStrAt | pyroscope_api.c:151 | what `%s` reads at an offset contains no NUL and stays inside the buffer |
| CFormat.CStrAtCopies | pyroscope_api.c:151 | `%s` reads the buffer's own bytes, up to a NUL or the buffer's end |
| CFormat.CStrAtIs | pyroscope_api.c:151 | a NUL-free run that ends at a NUL or at the end of the buffer is exactly what `%s` reads |
| CFormat.CStrAtSuffix | pyroscope_api.c:151 | reading with `%s` from k bytes into what it reads from the start gives the rest of that text past its first k bytes |
| CFormat.SnprintfWrite | pyroscope_api.c:150 | snprintf writes at most size - 1 bytes of the text and a NUL inside its window, leaves every other byte unchanged, and writes nothing for size 0 |
| CFormat.SnprintfReadBack | pyroscope_api.c:113 | reading the destination back with `%s` gives the text cut to size - 1 bytes |
| CFormat.Snprintf | pyroscope_api.c:150 | the array after the call is SnprintfWrite of the old contents, and the result is the full text length |
| CFormat.SnprintfBytes | pyroscope_api.c:150 | the bytes snprintf stores: none for size 0, otherwise the text cut to size - 1 bytes followed by a NUL |
| CFormat.Put | pyroscope_api.c:150 | bytes put at an offset replace the buffer's bytes there; every other byte and the length stay |
| CFormat.SnprintfWriteIsPut | pyroscope_api.c:150 | when the window lies inside the buffer, snprintf's write is its bytes put at the offset |
| CFormat.SnprintfAt | pyroscope_api.c:150-157 | snprintf with a size that may pass the array's end: the array is the old contents with the bytes put at the offset, those past its end dropped, and the result is the full text length |
| CFormat.Memcpy | phpspy_trace.c:146-147 | the first `count` source bytes replace the start of the buffer and the rest is unchanged |
| CFormat.Decimal | pyroscope_api.c:104-105 | `%u` gives at least one digit, with a leading zero only for 0 |
| CFormat.SignedDecimal | pyroscope_api.c:162-163 | `%d` starts with a minus sign exactly for negative numbers |
| CFormat.DecimalRoundTrip | pyroscope_api.c:104-105 | the digits printed by `%u` read back as the number |
| CFormat.SignedDecimalRoundTrip | pyroscope_api.c:162-163 | the text printed by `%d` reads back as the number |
| CFormat.SignedDecimalInjective | pyroscope_api.c:107-108 | distinct pids print as distinct texts |
| CFormat.RunLength | pyroscope_api.c:174 | the run before the first delimiter contains no delimiter and ends at a delimiter or at the end of the text |
| CFormat.Tokens | pyroscope_api.c:174-186 | the tokens strtok_r returns are non-empty and hold no delimiter |
| CFormat.TokensOfJoin | pyroscope_api.c:174-186 | tokenising non-empty, delimiter-free parts joined by the delimiter gives back exactly those parts |
| ProcMem.CopyOutcome | phpspy.c:123-129 | copy_proc_mem returns only OK, ERR or ERR with PID_DEAD; on OK it copied at most the readable bytes, and all of them exactly when the range is readable; on failure it copied nothing |
| ProcMem.VmReadCopy | phpspy.c:72-97 | the vm reader keeps the liveness flag; on OK it copied the whole size, which was readable; on failure it copied nothing |
| ProcMem.DirectCopy | phpspy.c:99-121 | the direct reader always clears the liveness flag; on OK it copied min(size, readable) bytes; on failure nothing |
| ProcMem.VmReadClassification | phpspy.c:72-97 | the vm reader refuses NULL with ERR; a dead target gives ERR with PID_DEAD; otherwise OK exactly when the whole range is readable, else ERR; it never touches the liveness flag |
| ProcMem.DirectClassification | phpspy.c:99-121 | the direct reader always clears the liveness flag; it reports PID_DEAD exactly when the flag was set and the target is gone, and ERR on a seek failure; on OK it copied min(size, readable) bytes, and a short read counts as success |
| ProcMem.DirectAliveCheckOnce | phpspy.c:100-107 | after one direct copy, no later direct copy can report PID_DEAD |
| ProcMem.ReadRecord | phpspy_trace.c:3-6 | a record copy succeeds exactly when it yields a value; that value is the record mapped at the address; the status is one of OK, ERR, ERR with PID_DEAD |
| ProcMem.ReadRecordSucceeds | phpspy.c:123-129 | a record copy succeeds exactly when the record is mapped and the target is alive, and, for the vm reader, the address is not NULL or, for the direct reader, the address can be seeked to |
| ProcMem.Target.constructor | phpspy.h:85-91 | a new target is all zeros |
| ProcMem.Target.CopyProcMemVmRead | phpspy.c:72-97 | the copy's status and byte count are those VmReadCopy gives |
| ProcMem.Target.CopyProcMemDirect | phpspy.c:99-121 | status, byte count and the cleared liveness flag are those DirectCopy gives |
| ProcMem.Target.CopyProcMem | phpspy.c:123-129 | the back end chosen by opt_direct_mem, and the outcome CopyOutcome gives for it |
| ProcMem.Target.CopyRecord | phpspy_trace.c:3-6 | one record copy has the status and value that ReadRecord gives |
| ProcMem.Locate | phpspy.c:45-70 | find_addresses does at most four lookups; on OK the last one is basic_functions_module with logging off, and logging is back on |
| ProcMem.LocateUsesExecutorGlobals | phpspy.c:51-55 | an override is used without a lookup; otherwise executor_globals is resolved first, and a failure of that lookup ends find_addresses with its status after that one lookup |
| ProcMem.LocateOptionalSymbols | phpspy.c:56-63 | sapi_globals is looked up exactly when there is no override and request capture is on; alloc_globals exactly when memory capture is on; a failure of either ends find_addresses with its status before basic_functions_module |
| ProcMem.LocateBasicFunctionsNonFatal | phpspy.c:64-69 | the status is OK exactly when the required symbols were found; then the last lookup is basic_functions_module with logging off, a failed lookup leaves address 0, and logging is back on; every earlier lookup ran with the original logging flag |
| ProcMem.PhpVersionTag | phpspy.c:181-193 | a tag is found exactly when the first three characters are a known version "7.0".."8.3", and the tag is its first and third character, a known tag |
| ProcMem.VersionTagTable | phpspy.c:181-189 | each known version maps to its own tag "70".."83" in order, whatever follows it |
| ProcMem.Options.constructor | phpspy.c:10-25 | the option globals start at their initial values: no overrides, captures off, version "auto", vm reads, pattern "libphp[78]?", logging on |
| ProcMem.FindAddresses | phpspy.c:45-70 | status, addresses, logging flag and lookup sequence are those Locate gives |
| ProcMem.FindRequired | phpspy.c:51-63 | the three required steps together give what Locate's first three steps give |
| ProcMem.FindExecutorGlobals | phpspy.c:51-55 | the executor_globals step gives what LocateExecutorGlobals gives |
| ProcMem.FindSapiGlobals | phpspy.c:56-60 | the sapi_globals step gives what LocateSapiGlobals gives |
| ProcMem.FindAllocGlobals | phpspy.c:61-63 | the alloc_globals step gives what LocateAllocGlobals gives |
| ProcMem.TargetVersionBytes | phpspy.c:139-146 | get_php_version starts from exactly three version bytes |
| ProcMem.ReadTargetVersion | phpspy.c:138-146 | the bytes and the liveness flag after the module copies are those TargetVersionBytes gives |
| ProcMem.GetPhpVersion | phpspy.c:131-196 | on a recognised version the option becomes its tag and the status is OK; otherwise the status is ERR and the option is unchanged |
| ZendHash.Djb | phpspy.c:200-204 | the reference hash: the left fold of the round `((hash << 5) + hash) + c` over the bytes, each byte sign-extended, from 5381, with 64-bit wrap-around |
| ZendHash.ShiftAdd33 | phpspy.c:204 | the round's `(hash << 5) + hash` equals `hash * 33` modulo 2^64 |
| ZendHash.ZendInlineHashFunc | phpspy.c:198-225 | the unrolled loop and switch compute the plain left fold of the round `((hash << 5) + hash) + c`, with 64-bit wrap-around and each byte read as a signed char, from 5381 over the first len bytes, with the top bit set; so the top bit is always set |
| ZendHash.EightRounds | phpspy.c:203-212 | one turn of the unrolled loop extends the fold by eight bytes |
| ZendHash.LastRounds | phpspy.c:213-222 | the fall-through switch extends the fold by the remaining 0..7 bytes |
| ZendHash.Round | phpspy.c:204 | one round extends the fold by one byte |
| Trace.Int32 | phpspy_trace.c:109 | the uint32 line_start stored in the int lineno is in C int range and congruent to it modulo 2^32 |
| Trace.HandlerStatus | pyroscope_api.c:82-95 | the handler returns a non-zero status exactly for the ERROR event |
| Trace.SprintZstringSpec | phpspy_trace.c:136-151 | the buffer keeps its size and the recorded length is below it |
| Trace.SprintZstringClamp | phpspy_trace.c:142-148 | whatever length the remote header claims, a successful copy records min(len, size - 1) and puts a NUL at that index; no byte past the recorded length changes; the first byte is NUL unless a non-empty string was copied; an unmapped header fails with length 0 |
| Trace.SprintZstringReadsBack | phpspy_trace.c:142-148 | a fully readable, NUL-free payload reads back with `%s` as exactly its first min(len, size - 1) bytes |
| Trace.SprintZstringShortRead | phpspy_trace.c:144-148 | a short direct read is still OK, with the clamped claim as its length; only the readable bytes are new and the rest below the NUL keep their old contents |
| Trace.DecodeFunctionName | phpspy_trace.c:85-93 | only the func buffer and its length change |
| Trace.DecodeClassName | phpspy_trace.c:94-103 | only the class buffer and its length change |
| Trace.DecodeFile | phpspy_trace.c:104-115 | only the file buffer, its length and the line change |
| Trace.FunctionNameMain | phpspy_trace.c:90-93 | a NULL function_name gives "<main>" with length 6 and status OK |
| Trace.ClassNameOfScope | phpspy_trace.c:94-103 | a NULL scope gives an empty class name with class_len 0 and status OK; otherwise a successful decode means the scope's class record was mapped, and the buffer and length are its name as sprint_zstring decodes it |
| Trace.FileAndLine | phpspy_trace.c:104-115 | a user function (type 2) with a file name gives that file and line_start as a C int; anything else gives "<internal>" and -1 |
| Trace.DecodeLoc | phpspy_trace.c:85-115 | decoding a location keeps the frame array and the frame's depth |
| Trace.FrameStep | phpspy_trace.c:75-120 | one loop turn keeps the state well formed |
| Trace.FrameStepStores | phpspy_trace.c:116-118 | a failed turn stores nothing; a successful one stores the current frame, numbered `depth`, at index `depth`, and moves to the record's prev_execute_data |
| Trace.TraceFrom | phpspy_trace.c:74-121 | the walk never goes backwards and never passes MAX_STACK_DEPTH frames |
| Trace.TraceFromFrames | phpspy_trace.c:72-120 | a successful walk ended at a NULL link or at the bound; each frame handed over sits at its own index numbered by that index; every other slot keeps its contents, also after a failure |
| Trace.TraceFromLastDepth | phpspy_trace.c:116-120 | after the walk the current frame's depth is unchanged when no frame was handed over, and otherwise is the last index handed over, one less than the count |
| Trace.DoTraceSpec | phpspy_trace.c:24-59 | do_trace keeps the walk state well formed |
| Trace.DoTraceSwallowsWalkErrors | phpspy_trace.c:46-58 | do_trace fails exactly when executor_globals cannot be copied, and then changes only the liveness flag; otherwise it returns OK whatever the walk returned, keeping what the walk stored |
| Trace.DoTraceLastDepth | phpspy_trace.c:46-58 | after do_trace the current depth is its old value or the index of a stored frame, so it stays inside the 64-frame array |
| Trace.BucketCount | phpspy_trace.c:198 | the number of buckets visited is min(nNumOfElements, 128) |
| Trace.AppendBucket | phpspy_trace.c:203-213 | one bucket never moves the cursor back; cursor plus room stay constant; with room left at least one byte stays; nothing outside the window changes |
| Trace.AppendBucketCommaRule | phpspy_trace.c:203-213 | with room left, the cursor moves past the text's first min(len, size - 1) bytes, which are the text's own; a ',' follows and takes one more byte exactly when at least two bytes of room remain after the text, and otherwise the NUL stays there and one byte of room is left |
| Trace.BucketsFrom | phpspy_trace.c:202-214 | the bucket loop keeps the buffer's size and the liveness flag |
| Trace.SprintZarraySpec | phpspy_trace.c:185-219 | rendering an array keeps the buffer's size |
| Trace.BucketsStayInWindow | phpspy_trace.c:202-214 | with at least one byte of room the loop never leaves its window, never runs out of room, and visits at most `count` buckets |
| Trace.SprintZarrayBounded | phpspy_trace.c:196-216 | sprint_zarray visits at most min(nNumOfElements, 128) buckets, writes only inside its window, and advances less than the room it was given |
| Trace.WriteBucket | phpspy_trace.c:203-213 | the array and cursor after one bucket are those AppendBucket gives |
| Trace.RenderBuckets | phpspy_trace.c:202-214 | the array, the advance and the status after the loop are those BucketsFrom gives |
| Trace.TraceContext.constructor | phpspy.h:93-102 | a new context is zeroed: empty buffers, a zeroed frame array of 64, a zeroed target |
| Trace.TraceContext.EventHandler | pyroscope_api.c:82-95 | a FRAME event stores the current frame at index `depth` and nothing else; every other event leaves the array alone; ERROR alone is answered non-zero |
| Trace.TraceContext.SprintZstring | phpspy_trace.c:136-151 | buffer, length, status and liveness flag after the call are those SprintZstringSpec gives |
| Trace.TraceContext.SprintZarray | phpspy_trace.c:185-219 | the window after the call and the bytes advanced are those SprintZarraySpec gives |
| Trace.TraceContext.DecodeFunctionNameInto | phpspy_trace.c:85-93 | the state after the branch is the one DecodeFunctionName gives |
| Trace.TraceContext.DecodeClassNameInto | phpspy_trace.c:94-103 | the state after the branch is the one DecodeClassName gives |
| Trace.TraceContext.DecodeFileInto | phpspy_trace.c:104-115 | the state after the branch is the one DecodeFile gives |
| Trace.TraceContext.DecodeLocInto | phpspy_trace.c:85-115 | the state after the three branches is the one DecodeLoc gives, with the depth unchanged |
| Trace.TraceContext.WalkFrame | phpspy_trace.c:75-120 | one loop turn leaves the status, state and next address FrameStep gives |
| Trace.TraceContext.TraceStack | phpspy_trace.c:61-124 | the walk leaves the status, state and frame count TraceFrom gives |
| Trace.TraceContext.CopyExecutorGlobals | phpspy_trace.c:126-134 | the status and record are those of copying executor_globals from its address |
| Trace.TraceContext.DoTrace | phpspy_trace.c:24-59 | the status and state are those DoTraceSpec gives |
| Output.ErrorMessage | pyroscope_api.c:102-114 | every failure message is non-empty |
| Output.ErrorMessageNulFree | pyroscope_api.c:102-114 | no message holds a NUL, so it reads back whole |
| Output.UnknownCodeReadsBack | pyroscope_api.c:102-105 | a status without the ERR bit gives "Unknown error code: " followed by digits that read back as the status |
| Output.DeadPidNamed | pyroscope_api.c:106-108 | with ERR set, PID_DEAD wins over BUF_FULL, and the pid in the message reads back |
| Output.BufferFullNamed | pyroscope_api.c:109-114 | with ERR set and no PID_DEAD, BUF_FULL names the pid and otherwise the message is "General error!" |
| Output.ErrorMsgSpec | pyroscope_api.c:97-116 | OK answers 0 and leaves the buffer alone; every answer lies between -err_len and 0, and a failure with room in the buffer answers negative; the buffer keeps its size |
| Output.FormulateErrorMsg | pyroscope_api.c:97-116 | result and error buffer are those ErrorMsgSpec gives |
| Output.ErrorResultSignals | pyroscope_api.c:99-115 | the result is 0 exactly for OK or an empty buffer, never positive, at most err_len in magnitude; OK and an empty buffer leave the buffer unchanged; otherwise the buffer reads back as the message cut to err_len - 1 bytes |
| Output.RootSkip | pyroscope_api.c:140-146 | the file starts at 0 or one past the root |
| Output.FilePartStripsRoot | pyroscope_api.c:140-151 | with a non-empty root that the file name starts with, followed by at least one more byte, the file is printed from one past the root; with an empty root, or a NUL-free root the file name does not start with, the whole file name is printed |
| Output.FilePart | pyroscope_api.c:151 | the file name as printed holds no NUL |
| Output.LinePart | pyroscope_api.c:148-157 | the line part holds no NUL |
| Output.CallPart | pyroscope_api.c:149-152 | the call part is NUL-free and ends in ';' |
| Output.CallPartSeparator | pyroscope_api.c:151-152 | the call part is the class name as `%s` reads it, then "::" exactly when class_len is non-zero, then the function name and ';' |
| Output.FrameText | pyroscope_api.c:148-158 | a frame's text is non-empty and NUL-free |
| Output.FrameTextShape | pyroscope_api.c:148-158 | a frame's text starts with the file read past the stripped root and ends in ';'; " - " follows directly when lineno is -1, otherwise ':' and digits that read back as the line |
| Output.FrameTexts | pyroscope_api.c:133-136 | there is one text per frame below n |
| Output.RenderingPeelsTop | pyroscope_api.c:133-158 | the rendering of frames n down to 0 is frame n's text followed by the rendering of frames n - 1 down to 0, so each frame below the depth appears once, highest index first |
| Output.FrameTextsNulFree | pyroscope_api.c:148-158 | every text is non-empty and NUL-free |
| Output.Joined | pyroscope_api.c:138 | the written prefix is at least as long as its last text |
| Output.JoinedNulFree | pyroscope_api.c:150-157 | NUL-free texts join into NUL-free output |
| Output.CorrectedScan | pyroscope_api.c:150-165 | corrected: a refusal is reported at a text after the start and within the list |
| Output.ScanCounts | pyroscope_api.c:150-167 | corrected: a rendering that is accepted is the concatenation of all texts and shorter than the buffer; a refusal comes at the first prefix that reaches the buffer's length, every shorter prefix having fitted |
| Output.Written | pyroscope_api.c:138-158 | writing the rendering from the start keeps the buffer's size |
| Output.SnprintfAppend | pyroscope_api.c:138-157 | writing a text at the cursor with the room that is left equals writing the whole prefix at once |
| Output.AppendAsWritten | pyroscope_api.c:138-157 | while the count stays below data_len, the source's call at the cursor with the whole of data_len as its size leaves the buffer as writing the longer prefix at once would |
| Output.NoSpaceMessage | pyroscope_api.c:161-163 | the "Not enough space! W > L" text holds no NUL |
| Output.EmitText | pyroscope_api.c:148-158 | as written: one frame's snprintf at the cursor, given data_len as its size, moves the cursor by the text's full length and puts the text's first data_len - 1 bytes and a NUL at the cursor, every other byte unchanged |
| Output.JoinedGrows | pyroscope_api.c:138-160 | a longer prefix of the texts never renders shorter, so the cumulative count never falls |
| Output.EmitFrames | pyroscope_api.c:133-166 | as written: the frame loop emits the texts of frames n - 1 down to 0 and stops after the first whose cumulative count passes data_len; its status, the buffer and how far the writes reached are those AsWrittenScan gives |
| Output.FormulateOutputSpec | pyroscope_api.c:128-168 | as written: the data and error buffers keep their sizes |
| Output.FormulateOutput | pyroscope_api.c:128-168 | as written: the result and both buffers are those FormulateOutputSpec gives for the context's frames and depth |
| Output.AsWrittenCounts | pyroscope_api.c:133-166 | as written, from any text whose earlier prefixes fitted below data_len: the loop accepts exactly the renderings of at most data_len bytes, with their full length; below data_len the buffer holds the rendering and its NUL; at exactly data_len it holds the last call's bytes over the rendering before it; a refusal comes at the first prefix longer than data_len; and the writes pass data_len exactly for an exactly full rendering of several texts or a refusal after the first text |
| Output.FormulateOutputResult | pyroscope_api.c:128-168 | as written, for any frames: a rendering of at most data_len bytes returns its full length and leaves the error buffer alone; a longer one is refused at the first frame whose cumulative count passes data_len, returns minus the full length of "Not enough space! W > L" for that count, and leaves the message, cut to err_len - 1 bytes, in the error buffer |
| Output.AsWrittenBelowCapacity | pyroscope_api.c:128-168 | a rendering shorter than data_len gives the same result and the same buffers as written and corrected |
| Output.AsWrittenFullBuffer | pyroscope_api.c:150-160 | as written, texts that add up to exactly data_len are accepted with data_len; one text is written snprintf-style and loses its last byte to the NUL; with several, the whole rendering is in the buffer and the NUL lands at index data_len; no byte past data_len changes |
| Output.AsWrittenExactlyFull | pyroscope_api.c:128-168 | as written, a rendering of exactly data_len bytes returns data_len with the error buffer untouched; one frame reads back without its last byte; several frames fill the buffer and put a NUL at data[data_len]; nothing further changes |
| Output.AsWrittenReach | pyroscope_api.c:150-165 | as written, the writes stay inside data_len below capacity and when the first text alone is refused; they pass it for an exactly full rendering of several texts and for a refusal at any later text |
| Output.CorrectedReadsBack | pyroscope_api.c:133-167 | corrected: a rendering that is accepted reads back as exactly the concatenated texts; either way no byte at or past data_len changes |
| Output.FormulateOutputCorrected | pyroscope_api.c:128-168 | corrected: the data and error buffers keep their sizes |
| Output.CorrectedOutputPromise | pyroscope_api.c:128-168 | corrected: a rendering that fits with its NUL returns its length, reads back as the texts of frames depth - 1 down to 0 and leaves the error buffer alone; a refusal returns minus the full length of "Not enough space! W > L", for a count of at least data_len, and leaves the message cut to err_len - 1 bytes in the error buffer; no byte at or past data_len changes |
| Output.AsWrittenScan | pyroscope_api.c:150-165 | as written: the buffer keeps its size, the bytes reached only grow, and a refusal names a text within the list |
| Output.AsWrittenOverruns | pyroscope_api.c:150-155 | as written, 30 bytes and two 17-byte texts write through index 34, past the buffer |
| Output.AsWrittenAcceptsTruncated | pyroscope_api.c:160 | as written, one 17-byte text in a 17-byte buffer is accepted with result 17 though the buffer holds only 16 bytes of it |
| Api.ProcessCwd | pyroscope_api.c:118-126 | the root is empty when readlink fails, and otherwise NUL-free and no longer than PATH_MAX |
| Api.ProcessCwdReadsLink | pyroscope_api.c:121-125 | a NUL-free link shorter than PATH_MAX is exactly the root the formatter strips |
| Api.NotInitialized | pyroscope_api.c:212-216 | an unregistered pid always gets a negative answer, and the error buffer keeps its size |
| Api.NotInitializedNamesPid | pyroscope_api.c:212-216 | an unregistered pid always gets a negative answer, 31 plus the pid's width, whatever the room; the buffer reads back as the message cut to err_len - 1 bytes, and the pid in it reads back |
| Api.ReportNotInitialized | pyroscope_api.c:213-215 | result and buffer are those NotInitialized gives |
| Api.WalkerFor | pyroscope_api.c:259-280 | a walker is chosen exactly for a known tag "70".."83", and it is that tag's walker |
| Api.DispatchSpec | pyroscope_api.c:255-280 | the dispatch succeeds exactly when it chose a walker |
| Api.InitializeSpec | pyroscope_api.c:245-300 | initialize returns OK only with a walker chosen, the memory file open and the addresses found |
| Api.InitializeOutcome | pyroscope_api.c:245-300 | initialize succeeds exactly when a walker was chosen, the memory file opened and the addresses were found; the walker fits the option as it ends up; an open failure sets ERR, with PID_DEAD exactly for ESRCH |
| Api.InitializeVersionPinned | pyroscope_api.c:255-257 | once the option holds a tag, detection is skipped and every later initialize dispatches on that tag; a detection stores the tag it found, and a failed one leaves "auto" |
| Api.UnknownVersionUnarmed | pyroscope_api.c:255-280 | a detection that finds no tag ends with ERR, the option still "auto" and no walker, whatever open and find_addresses would have given |
| Api.LastWithKey | pyroscope_api.c:176-187 | the index is that of the last pair with the key, or -1 when no pair has it |
| Api.ApplySpyPairs | pyroscope_api.c:176-187 | an option that no pair names keeps its value |
| Api.SpyPairsLastWins | pyroscope_api.c:176-187 | after phpspy_init_spy, direct_mem is whether the last direct_mem pair's value is "true", the pattern is the last pattern pair's value, and an option no pair names keeps its value |
| Api.SpyArgsSplit | pyroscope_api.c:174-186 | strtok_r splits "direct_mem=true,libphp_awk_pattern=libphp7" into its two pairs |
| Api.SpyPairsSplit | pyroscope_api.c:177-178 | each example pair splits into its key and its value |
| Api.SpyArgsExample | pyroscope_api.c:170-190 | the example arguments select direct reads and the pattern "libphp7" |
| Api.Session.constructor | pyroscope_api_struct.h:11-18 | a new session is zeroed: pid 0, empty root, no walker, no next, a zeroed context |
| Api.SnapshotSpec | pyroscope_api.c:218-227 | a snapshot keeps the sizes of the data and error buffers |
| Api.Session.Sample | pyroscope_api.c:218-227 | the result, the walk state and both buffers are those SnapshotSpec gives, with formulate_output as written |
| Api.FirstWithPid | pyroscope_api.c:66-80 | the index is that of the first session with the pid, or the list length when none has it |
| Api.FirstWithPidAppend | pyroscope_api.c:66-80 | appending a session changes the first match only when no earlier session had the pid |
| Api.Registry.LinkedDistinct | pyroscope_api.c:66-80 | a NULL-terminated list holds each session once |
| Api.Registry.constructor | pyroscope_api.c:30 | the library starts with an empty list and the options at their initial values |
| Api.Registry.InitSpy | pyroscope_api.c:170-190 | the settings after the call are the ','-tokens of the arguments applied in order |
| Api.Registry.AllocateContext | pyroscope_api.c:32-47 | one fresh, zeroed session is appended at the tail; the earlier sessions stay, in order, with their walkers |
| Api.Registry.DeallocateContext | pyroscope_api.c:49-64 | exactly that session is removed, the others stay in order, the head moves on when it was first, and every remaining session keeps its walker |
| Api.Registry.FindMatchingContext | pyroscope_api.c:66-80 | the result is the first session in list order with the pid, or null |
| Api.Registry.Register | pyroscope_api.c:195-197 | a session with the pid and the process root is appended, with no walker yet |
| Api.Registry.InitializeReporting | pyroscope_api.c:198-202 | the list is unchanged; status, option and walker follow InitializeSpec; the answer is formulate_error_msg's for that status; success implies a walker |
| Api.Registry.InitPid | pyroscope_api.c:192-205 | as written: the new session is appended and kept whatever initialize returns; the walker and the option follow InitializeSpec, and the answer is formulate_error_msg's |
| Api.Registry.KeepIfInitialized | pyroscope_api.c:198-204 | the session appended last stays only on success, and every remaining session has a walker |
| Api.Registry.InitPidReleasing | pyroscope_api.c:192-205 | corrected: a failed init leaves the list unchanged, a successful one appends the session with its walker, and every registered session keeps a walker |
| Api.Registry.Snapshot | pyroscope_api.c:207-228 | an unregistered pid gets the not-initialized answer with the data untouched; a registered one gets what SnapshotSpec gives, with formulate_output as written; the list and the match for the pid stay as they were |
| Api.Registry.Cleanup | pyroscope_api.c:230-243 | an unregistered pid gets the not-initialized answer with the list unchanged; otherwise the first session with the pid is removed and the result is 0 with the error buffer untouched |
| Api.SelectWalker | pyroscope_api.c:248-280 | the pid is recorded and the walker and option are the ones DispatchSpec gives for the detected version |
| Api.OpenAndLocate | pyroscope_api.c:282-299 | the status is OpenStatus of the open and of find_addresses; on an open failure the descriptor is -1 and addresses and logging are untouched |
| Api.Initialize | pyroscope_api.c:245-300 | status, option, walker and addresses are those InitializeSpec and Locate give |
| Api.SnapshotReportsCopyFailure | pyroscope_api.c:218-221 | when executor_globals cannot be copied and the error buffer has room, the snapshot is negative, leaves the data buffer alone and names the failure |
| Api.SnapshotRenders | pyroscope_api.c:218-227 | once executor_globals is copied, the frames are rendered whatever the walk returned; with no room for a message, even a failed copy goes on to render the frames stored by earlier snapshots |
| Api.SnapshotSkipsOutermost | pyroscope_api.c:131-133 | after a walk that handed over w > 0 frames the depth is w - 1, so frames w - 2 down to 0 are rendered and the outermost one is not |

## Left out

- System calls are not modelled. `process_vm_readv`, `lseek`, `read`, `stat`, `open`, `readlink` and `close` become a memory snapshot or parameters. `free` is not modelled: a removed session simply leaves the list.
- `get_symbol_addr` is a resolver function passed in. Its answers are fixed for one call of find_addresses.
- The shell pipeline of `get_php_version` (shell_escape, snprintf of the command, popen, fread) becomes one optional three-byte answer.
- `log_error` output, `perror` and the text each copies with is not modelled. Only the `log_error_enabled` flag is.
- The walker is written once, generic over abstract Zend records. The nine version-templated copies `do_trace_70`…`do_trace_83` are named by their tag, and the Zend struct layouts are not modelled.
- `sprint_zval` and `sprint_zarray_bucket` are a rendering function passed to the bucket loop. The `%f` double branch is floating point.
- Concurrency is not modelled. The library keeps no lock, and the model is sequential.
- `deinitialize` is not modelled: closing the memory file has no effect on the modelled state.
- The unused `prev` field of a session is not modelled. The session struct does not declare `do_trace_ptr`, and `trace_target_t` does not declare `mem_fd_alive_check`, `mem_path` or the sapi/alloc addresses; the model gives the session and the target these fields.
- Nothing sets `mem_fd_alive_check`, so the liveness check starts off; the model keeps the flag and its once-only behaviour.
- get_php_version runs before find_addresses, so the basic_functions_module address is still 0 and the shell answer decides. Api.Registry.InitPid states this with address 0.
- Api.Registry.Snapshot requires a walker for a registered pid. The source calls a NULL `do_trace_ptr` after a failed init, which is undefined behaviour; UnknownVersionUnarmed shows when that happens.
- Api.Session.Sample requires a walker, for the same reason.
- Api.Registry.InitSpy requires every pair to have a key, and a value when the key is used. A NULL token handed to strcmp or strdup is undefined behaviour.
- Api.Registry.InitSpy iterates over the precomputed token list. It does not model strtok_r's saved pointer.
- Api.ProcessCwd covers only links without NUL bytes or links cut at PATH_MAX. A link of exactly PATH_MAX bytes leaves the buffer without a terminator, so the model reads up to the first NUL.
- Output.RootSkip treats a root longer than the file buffer as not matching. The source's memcmp would read past the 256-byte buffer.
- Output.FilePart prints an empty file name when a root of exactly 255 bytes matches a file name of 255 bytes, the most sprint_zstring keeps. The source's `%s` then starts at `&loc->file[256]`, one past the 256-byte array, and prints whatever bytes of the following fields come before a NUL. The model does not represent memory past the array.
- Trace.DoTraceSpec returns OK after a failed walk, as the source does. The walk's status is lost; DoTraceSwallowsWalkErrors states this.
- The outermost frame is not rendered, as in the source; SnapshotSkipsOutermost states this.
- The direct reader trusts short reads, as in the source; SprintZstringShortRead states this.
- With err_len 0 a failure answers 0, which looks like success; ErrorResultSignals states this.
- Trace.TraceContext keeps `event.frame.depth` as a value from 0 to 64. It is that value from calloc and from every frame stored, so the handler's `frames[depth]` store stays in bounds.
- ZendHash.ZendInlineHashFunc states its round `(hash << 5) + hash + c` exactly as the source writes it. ZendHash.ShiftAdd33 proves `(hash << 5) + hash == hash * 33` modulo 2^64, but the fold is not restated round by round with `* 33`, because that 64-bit reasoning is too costly for the solver.
- ProcMem.ReadRecord: a record copy is all-or-nothing, so a short direct read of a struct, which copy_proc_mem reports as success with part of the struct copied, gives no record in the model. Only sprint_zstring's payload keeps the partial-read behaviour (Trace.SprintZstringShortRead).
- ProcMem.TargetVersionBytes sets the two bytes after `phpv[0]` to NUL as well. The source sets only `phpv[0]` to NUL before the copy. The two agree whenever the first byte decides (a failed copy leaves it NUL, and the shell answer is used). They differ only after a short direct read of one or two bytes: the source's strncmp then reads uninitialised stack bytes, while the model reads NULs, so such a partial version is never recognised.
- ProcMem.ProcMemRead assumes that reading from a dead target fails with EIO. On Linux such a read may instead return 0 bytes. ProcMem.SeekOk assumes the kernel refuses a seek to an address of 2^63 or more, read as a negative off_t.
- Lengths are `nat`. The C `int` data_len and err_len can be negative, and snprintf would then take them as a huge size_t. The model does not cover negative lengths.
- Api.SnapshotSpec, Api.Session.Sample and Api.Registry.Snapshot require data_len to be at most the size of the data buffer, as a caller passing its buffer's size does.
- Output.FormulateOutput, Api.Session.Sample and Api.Registry.Snapshot require the data and error buffers to be distinct arrays. phpspy_snapshot accepts any two pointers; aliased or overlapping data and error buffers are not covered.
- Output.FormulateOutput and Output.EmitFrames do not keep bytes that the as-written snprintf calls store past the end of the Dafny array. The ghost `reach` records how far those writes went, and Output.AsWrittenReach states when they pass data_len.

## Findings

| source | as written | input that shows it | evidently intended | confidence | as-written member | corrected member |
|---|---|---|---|---|---|---|
| pyroscope_api.c:150-157 | every frame's snprintf gets `data_len` as its size, whatever was already written | data_len 30 and two 17-byte frame texts: the second call starts at offset 17 and may write 30 bytes, through index 34 (Output.AsWrittenReach states when the writes pass data_len) | pass the remaining room, `data_len - written` | not executed | Output.AsWrittenOverruns | Output.CorrectedOutputPromise |
| pyroscope_api.c:160 | the check is `written > data_len`, so output of exactly data_len bytes is accepted | data_len 17 and one 17-byte text: the result is 17, but the buffer holds 16 bytes and a NUL; with several texts that add up to data_len the NUL is written at data[data_len], past the buffer (Output.AsWrittenExactlyFull) | reject `written >= data_len`, since the NUL needs a byte too | not executed | Output.AsWrittenAcceptsTruncated | Output.ScanCounts |
| pyroscope_api.c:198-202 | a failed initialize leaves the new session registered, whatever the failure | an unrecognised PHP version: the session stays with a NULL `do_trace_ptr`, which a later snapshot of that pid calls | release the session when initialize fails | not executed | Api.Registry.InitPid | Api.Registry.InitPidReleasing |
