/**
 * The C library string behaviour the core relies on: `%s`/strlen reading up
 * to the first NUL, bounded snprintf, and `%u`/`%d` decimal rendering.
 */
module CFormat {
  import opened Defs

  /**
   * What `%s`, strlen and strcpy see at `buf[start..]`: the bytes up to the
   * first NUL, or up to the end of the buffer when it holds none.
   */
  function CStrAt(buf: seq<char>, start: nat): (s: seq<char>)
    ensures start >= |buf| ==> s == []
    ensures start <= |buf| ==> start + |s| <= |buf|
    ensures NUL !in s
    decreases |buf| - start
  {
    if start >= |buf| || buf[start] == NUL then [] else [buf[start]] + CStrAt(buf, start + 1)
  }

  /** The run `%s` reads is a copy of the buffer's bytes, ended by a NUL or by the end of the buffer. */
  lemma {:induction false} CStrAtCopies(buf: seq<char>, start: nat)
    ensures forall i :: 0 <= i < |CStrAt(buf, start)| ==> buf[start + i] == CStrAt(buf, start)[i]
    ensures start + |CStrAt(buf, start)| < |buf| ==> buf[start + |CStrAt(buf, start)|] == NUL
    decreases |buf| - start
  {
    if start < |buf| && buf[start] != NUL {
      CStrAtCopies(buf, start + 1);
    }
  }

  /** A NUL-free run followed by a NUL (or the end of the buffer) is what `%s` reads. */
  lemma {:induction false} CStrAtIs(buf: seq<char>, start: nat, s: seq<char>)
    requires start + |s| <= |buf|
    requires NUL !in s
    requires forall i :: 0 <= i < |s| ==> buf[start + i] == s[i]
    requires start + |s| == |buf| || buf[start + |s|] == NUL
    ensures CStrAt(buf, start) == s
    decreases |s|
  {
    if s != [] {
      assert buf[start] == s[0] && s[0] in s;
      CStrAtIs(buf, start + 1, s[1..]);
    }
  }

  /** Reading from k bytes further into a string reads the rest of the same string. */
  lemma {:induction false} CStrAtSuffix(buf: seq<char>, start: nat, k: nat)
    requires k <= |CStrAt(buf, start)|
    ensures CStrAt(buf, start + k) == CStrAt(buf, start)[k..]
    decreases k
  {
    if k > 0 {
      CStrAtSuffix(buf, start + 1, k - 1);
    }
  }

  /**
   * The buffer after `snprintf(buf + off, size, "%s", s)`: at most size - 1
   * bytes of `s`, then a NUL; nothing is written when size is 0.
   */
  function SnprintfWrite(buf: seq<char>, off: nat, size: nat, s: seq<char>): (r: seq<char>)
    requires off + size <= |buf|
    ensures |r| == |buf|
    ensures forall i :: 0 <= i < |buf| && !(off <= i < off + size) ==> r[i] == buf[i]
    ensures size > 0 ==> forall i :: 0 <= i < Min(|s|, size - 1) ==> r[off + i] == s[i]
    ensures size > 0 ==> r[off + Min(|s|, size - 1)] == NUL
    ensures forall i :: off + Min(|s|, size - 1) < i < off + size ==> r[i] == buf[i]
  {
    if size == 0 then buf
    else
      var n := Min(|s|, size - 1);
      buf[..off] + s[..n] + [NUL] + buf[off + n + 1..]
  }

  /** Reading the destination back with `%s` yields the text, cut to size - 1 bytes. */
  lemma SnprintfReadBack(buf: seq<char>, off: nat, size: nat, s: seq<char>)
    requires off + size <= |buf| && size > 0 && NUL !in s
    ensures CStrAt(SnprintfWrite(buf, off, size, s), off) == s[..Min(|s|, size - 1)]
  {
    var r := SnprintfWrite(buf, off, size, s);
    CStrAtIs(r, off, s[..Min(|s|, size - 1)]);
  }

  /**
   * snprintf(buf + off, size, "%s", s) on an array: writes the bounded copy
   * and returns the length the whole text would have had.
   */
  method Snprintf(buf: array<char>, off: nat, size: nat, s: seq<char>) returns (n: nat)
    requires off + size <= buf.Length
    modifies buf
    ensures n == |s|
    ensures buf[..] == SnprintfWrite(old(buf[..]), off, size, s)
  {
    if size > 0 {
      var k := Min(|s|, size - 1);
      var i := 0;
      while i < k
        invariant 0 <= i <= k
        invariant forall j :: 0 <= j < buf.Length && !(off <= j < off + i) ==> buf[j] == old(buf[j])
        invariant forall j :: 0 <= j < i ==> buf[off + j] == s[j]
      {
        buf[off + i] := s[i];
        i := i + 1;
      }
      buf[off + k] := NUL;
    }
    n := |s|;
    assert forall j :: 0 <= j < buf.Length ==> buf[..][j] == SnprintfWrite(old(buf[..]), off, size, s)[j];
  }

  /** The bytes `snprintf(dst, size, "%s", s)` stores from dst on: at most size - 1 of `s` and a NUL; none for size 0. */
  function SnprintfBytes(s: seq<char>, size: nat): (b: seq<char>)
    ensures size == 0 ==> b == []
    ensures size > 0 ==> b == s[..Min(|s|, size - 1)] + [NUL]
  {
    if size == 0 then [] else s[..Min(|s|, size - 1)] + [NUL]
  }

  /**
   * `b` stored into the buffer from `off` on; bytes that would land past the
   * end of the buffer are not kept.
   */
  function Put(buf: seq<char>, off: nat, b: seq<char>): (r: seq<char>)
    ensures |r| == |buf|
    ensures forall i :: 0 <= i < |buf| ==> r[i] == if off <= i < off + |b| then b[i - off] else buf[i]
  {
    seq(|buf|, i requires 0 <= i < |buf| => if off <= i < off + |b| then b[i - off] else buf[i])
  }

  /** A snprintf whose window lies inside the buffer stores exactly its bytes at the offset. */
  lemma SnprintfWriteIsPut(buf: seq<char>, off: nat, size: nat, s: seq<char>)
    requires off + size <= |buf|
    ensures SnprintfWrite(buf, off, size, s) == Put(buf, off, SnprintfBytes(s, size))
  {
    var l := SnprintfWrite(buf, off, size, s);
    var r := Put(buf, off, SnprintfBytes(s, size));
    forall i | 0 <= i < |buf|
      ensures l[i] == r[i]
    {
    }
  }

  /**
   * snprintf(buf + off, size, "%s", s) where the window may run past the
   * end of the array, as happens when the caller passes a size larger than
   * the room it has: the bytes inside the array are stored, and the result
   * is the length the whole text would have had.
   */
  method SnprintfAt(buf: array<char>, off: nat, size: nat, s: seq<char>) returns (n: nat)
    modifies buf
    ensures n == |s|
    ensures buf[..] == Put(old(buf[..]), off, SnprintfBytes(s, size))
  {
    var b := SnprintfBytes(s, size);
    var i := 0;
    while i < |b| && off + i < buf.Length
      invariant 0 <= i <= |b|
      invariant forall j :: 0 <= j < buf.Length ==> buf[j] == if off <= j < off + i then b[j - off] else old(buf[j])
    {
      buf[off + i] := b[i];
      i := i + 1;
    }
    n := |s|;
    assert forall j :: 0 <= j < buf.Length ==> buf[..][j] == Put(old(buf[..]), off, b)[j];
  }

  /** memcpy(buf, src, count): the first `count` bytes of `src` over the start of `buf`. */
  method Memcpy(buf: array<char>, src: seq<char>, count: nat)
    requires count <= |src| && count <= buf.Length
    modifies buf
    ensures buf[..] == src[..count] + old(buf[..])[count..]
  {
    var i := 0;
    while i < count
      invariant 0 <= i <= count
      invariant forall j :: 0 <= j < i ==> buf[j] == src[j]
      invariant forall j :: i <= j < buf.Length ==> buf[j] == old(buf[j])
    {
      buf[i] := src[i];
      i := i + 1;
    }
    assert buf[..] == src[..count] + old(buf[..])[count..];
  }

  function DigitChar(d: nat): (c: char)
    requires d < 10
    ensures '0' <= c <= '9'
  {
    ('0' as int + d) as char
  }

  predicate IsDigits(s: string) {
    forall i :: 0 <= i < |s| ==> '0' <= s[i] <= '9'
  }

  /** `%u` of `n`: its decimal digits, with no leading zero. */
  function Decimal(n: nat): (s: string)
    ensures |s| >= 1 && IsDigits(s) && NUL !in s
    ensures s[0] == '0' <==> n == 0
    decreases n
  {
    if n < 10 then [DigitChar(n)] else Decimal(n / 10) + [DigitChar(n % 10)]
  }

  /** `%d` of `n`: a minus sign exactly for negative numbers, then the digits of |n|. */
  function SignedDecimal(n: int): (s: string)
    ensures |s| >= 1 && NUL !in s
    ensures s[0] == '-' <==> n < 0
  {
    if n < 0 then "-" + Decimal(-n) else Decimal(n)
  }

  /** The number a string of decimal digits denotes. */
  function DigitsValue(s: string): nat
    requires IsDigits(s)
  {
    if s == [] then 0 else DigitsValue(s[..|s| - 1]) * 10 + (s[|s| - 1] as int - '0' as int)
  }

  function SignedValue(s: string): int
    requires |s| >= 1
    requires s[0] == '-' ==> IsDigits(s[1..])
    requires s[0] != '-' ==> IsDigits(s)
  {
    if s[0] == '-' then -(DigitsValue(s[1..]) as int) else DigitsValue(s)
  }

  /** Reading the digits back gives the number that was printed. */
  lemma {:induction false} DecimalRoundTrip(n: nat)
    ensures DigitsValue(Decimal(n)) == n
    decreases n
  {
    if n >= 10 {
      DecimalRoundTrip(n / 10);
      var s := Decimal(n);
      assert s[..|s| - 1] == Decimal(n / 10);
    }
  }

  lemma SignedDecimalRoundTrip(n: int)
    ensures SignedValue(SignedDecimal(n)) == n
  {
    if n < 0 {
      DecimalRoundTrip(-n);
    } else {
      DecimalRoundTrip(n);
    }
  }

  /** Distinct numbers print differently. */
  lemma SignedDecimalInjective(a: int, b: int)
    ensures SignedDecimal(a) == SignedDecimal(b) ==> a == b
  {
    SignedDecimalRoundTrip(a);
    SignedDecimalRoundTrip(b);
  }

  /** The length of the run of `s` before its first `d` (all of `s` when there is none). */
  function RunLength(s: string, d: char): (n: nat)
    ensures n <= |s| && d !in s[..n] && (n < |s| ==> s[n] == d)
  {
    if s == [] || s[0] == d then 0
    else
      var m := RunLength(s[1..], d);
      assert s[..1 + m] == [s[0]] + s[1..][..m];
      1 + m
  }

  /**
   * The tokens successive strtok_r calls hand out for the one-character
   * delimiter set {d}: the maximal runs free of `d`, in order; delimiters
   * in a row and at either end yield no empty token.
   */
  function Tokens(s: string, d: char): (ts: seq<string>)
    ensures forall i :: 0 <= i < |ts| ==> ts[i] != [] && d !in ts[i]
    decreases |s|
  {
    if s == [] then []
    else if s[0] == d then Tokens(s[1..], d)
    else
      var n := RunLength(s, d);
      [s[..n]] + Tokens(s[n..], d)
  }

  /** Tokens written back with one delimiter between each two. */
  function JoinWith(ts: seq<string>, d: char): string {
    if ts == [] then [] else if |ts| == 1 then ts[0] else ts[0] + [d] + JoinWith(ts[1..], d)
  }

  /** A delimiter-free run followed by a delimiter or by nothing is measured exactly. */
  lemma {:induction false} RunLengthOf(t: string, rest: string, d: char)
    requires d !in t && (rest == [] || rest[0] == d)
    ensures RunLength(t + rest, d) == |t|
    decreases |t|
  {
    if t != [] {
      assert (t + rest)[1..] == t[1..] + rest;
      RunLengthOf(t[1..], rest, d);
    } else {
      assert t + rest == rest;
    }
  }

  /** Non-empty, delimiter-free tokens joined by the delimiter are split back into the same tokens. */
  lemma {:induction false} TokensOfJoin(ts: seq<string>, d: char)
    requires forall i :: 0 <= i < |ts| ==> ts[i] != [] && d !in ts[i]
    ensures Tokens(JoinWith(ts, d), d) == ts
    decreases |ts|
  {
    if ts != [] {
      var t := ts[0];
      if |ts| == 1 {
        RunLengthOf(t, [], d);
        assert t + [] == t;
        assert t[|t|..] == [];
      } else {
        var rest := JoinWith(ts[1..], d);
        var s := t + [d] + rest;
        RunLengthOf(t, [d] + rest, d);
        assert s == t + ([d] + rest);
        assert s[..|t|] == t;
        assert s[|t|..] == [d] + rest;
        assert ([d] + rest)[1..] == rest;
        TokensOfJoin(ts[1..], d);
        assert ts == [t] + ts[1..];
      }
    }
  }
}
