/**
 * Shared definitions of the sampler (phpspy.h): the status bits, the `try`
 * early return, MIN/MAX, the walk depth bound and the frame record a walk
 * fills and an event handler copies out.
 */
module Defs {

  /** Deepest stack a walk records; also the length of a session's frame array. */
  const MAX_STACK_DEPTH: nat := 64
  /** Size of the func, class and file buffers of a frame. */
  const STR_SIZE: nat := 256
  /** Most buckets one array rendering visits. */
  const MAX_ARRAY_BUCKETS: nat := 128

  /** A status as the C code passes it around: bits of an int combined with `|`. */
  type Status = bv32

  const OK: Status := 0
  const ERR: Status := 1
  const ERR_PID_DEAD: Status := 2
  const ERR_BUF_FULL: Status := 4

  const EVENT_INIT: int := 0
  const EVENT_STACK_BEGIN: int := 1
  const EVENT_FRAME: int := 2
  const EVENT_VARPEEK: int := 3
  const EVENT_GLOPEEK: int := 4
  const EVENT_REQUEST: int := 5
  const EVENT_MEM: int := 6
  const EVENT_STACK_END: int := 7
  const EVENT_ERROR: int := 8
  const EVENT_DEINIT: int := 9

  datatype Option<T> = None | Some(value: T)

  /**
   * The status of a call as `try(rv, call)` sees it: a non-zero status
   * leaves the enclosing function with that same status. Used with `:-`.
   */
  datatype Rv = Rv(code: Status) {
    predicate IsFailure() { code != OK }
    function PropagateFailure(): Rv { this }
  }

  predicate HasFlag(rv: Status, flag: Status) {
    rv & flag != 0
  }

  /**
   * The codes are distinct single bits: OR-ing PID_DEAD or BUF_FULL onto ERR
   * keeps every bit recoverable, and OK carries none.
   */
  lemma {:induction false} StatusBitsDistinct()
    ensures OK == 0 && ERR & ERR_PID_DEAD == 0 && ERR & ERR_BUF_FULL == 0 && ERR_PID_DEAD & ERR_BUF_FULL == 0
    ensures HasFlag(ERR | ERR_PID_DEAD, ERR) && HasFlag(ERR | ERR_PID_DEAD, ERR_PID_DEAD)
    ensures !HasFlag(ERR | ERR_PID_DEAD, ERR_BUF_FULL)
    ensures HasFlag(ERR | ERR_BUF_FULL, ERR) && HasFlag(ERR | ERR_BUF_FULL, ERR_BUF_FULL)
    ensures !HasFlag(ERR | ERR_BUF_FULL, ERR_PID_DEAD)
    ensures forall f: Status :: !HasFlag(OK, f)
  {
  }

  /** PHPSPY_MIN. */
  function Min(a: int, b: int): (r: int)
    ensures r <= a && r <= b
    ensures r == a || r == b
  {
    if a < b then a else b
  }

  /** PHPSPY_MAX. */
  function Max(a: int, b: int): (r: int)
    ensures r >= a && r >= b
    ensures r == a || r == b
  {
    if a > b then a else b
  }

  const NUL: char := 0 as char

  /** `n` zero bytes, as calloc and memset leave a buffer. */
  function Zeroes(n: nat): (s: seq<char>)
    ensures |s| == n
    ensures forall i :: 0 <= i < n ==> s[i] == NUL
  {
    seq(n, _ => NUL)
  }

  /**
   * trace_loc_t: three fixed-size text buffers with their recorded lengths
   * and the line number. The C header calls the class buffer `class_name`;
   * the formatter reads it as `class`: the model has one field.
   */
  datatype TraceLoc = TraceLoc(
    func: seq<char>,
    className: seq<char>,
    file: seq<char>,
    funcLen: nat,
    classLen: nat,
    fileLen: nat,
    lineno: int)

  /** trace_frame_t: a location and the index of the frame on the stack. */
  datatype TraceFrame = TraceFrame(loc: TraceLoc, depth: int)

  /** Every text buffer of the location holds STR_SIZE bytes. */
  predicate LocShaped(loc: TraceLoc) {
    |loc.func| == STR_SIZE && |loc.className| == STR_SIZE && |loc.file| == STR_SIZE
  }

  /** The all-zero frame that calloc leaves in a fresh session. */
  function ZeroFrame(): (f: TraceFrame)
    ensures LocShaped(f.loc) && f.depth == 0 && f.loc.lineno == 0
    ensures f.loc.funcLen == 0 && f.loc.classLen == 0 && f.loc.fileLen == 0
    ensures f.loc.func[0] == NUL && f.loc.className[0] == NUL && f.loc.file[0] == NUL
  {
    TraceFrame(TraceLoc(Zeroes(STR_SIZE), Zeroes(STR_SIZE), Zeroes(STR_SIZE), 0, 0, 0, 0), 0)
  }
}
