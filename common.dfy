/** Shared vocabulary: bytes, failure wrappers, the Python exceptions the core can raise,
    the byte/character conversion used for header text, and the socket file objects
    (`rfile` as the unread rest of a byte stream, `wfile` as an append-only write log). */
module Common {

  type byte = x: int | 0 <= x < 256
  type Bytes = seq<byte>

  datatype Option<+T> = None | Some(value: T)

  /** The Python exceptions that can escape the core. */
  datatype Error =
    | KeyError(key: string)
    | ValueError
    | IndexError
    | TypeError
    | ZeroDivisionError
    | CompressionError

  datatype Result<+T> = Ok(value: T) | Err(error: Error) {
    predicate IsFailure() { Err? }
    function PropagateFailure<U>(): Result<U> requires Err? { Err(error) }
    function Extract(): T requires Ok? { value }
  }

  const CR: byte := 13
  const LF: byte := 10
  const CRLF: Bytes := [CR, LF]

  /** Characters that fit in one byte. */
  predicate IsLatin1(s: string) {
    forall i :: 0 <= i < |s| ==> s[i] as int < 256
  }

  /** Header text decoding: one character per byte (exact for ASCII, where UTF-8 agrees). */
  function Decode(b: Bytes): (s: string)
    ensures |s| == |b|
  {
    seq(|b|, i requires 0 <= i < |b| => b[i] as char)
  }

  /** Header text encoding: one byte per character (exact for ASCII). */
  function Encode(s: string): (b: Bytes)
    ensures |b| == |s|
  {
    seq(|s|, i requires 0 <= i < |s| => s[i] as int % 256)
  }

  lemma DecodeEncode(s: string)
    requires IsLatin1(s)
    ensures Decode(Encode(s)) == s
  {
    assert forall i :: 0 <= i < |s| ==> Decode(Encode(s))[i] == s[i];
  }

  lemma EncodeAppend(a: string, b: string)
    ensures Encode(a + b) == Encode(a) + Encode(b)
  {
    assert forall i :: 0 <= i < |a + b| ==> Encode(a + b)[i] == (Encode(a) + Encode(b))[i];
  }

  /** b''.join(parts) */
  function Concat(parts: seq<Bytes>): (r: Bytes)
  {
    if parts == [] then [] else parts[0] + Concat(parts[1..])
  }

  /** Concatenation is associative. */
  lemma AppendAssoc<T>(a: seq<T>, b: seq<T>, c: seq<T>)
    ensures a + (b + c) == a + b + c
  {
  }

  lemma ConcatAppend(a: seq<Bytes>, b: seq<Bytes>)
    ensures Concat(a + b) == Concat(a) + Concat(b)
  {
    if a == [] {
      assert a + b == b;
    } else {
      assert (a + b)[1..] == a[1..] + b;
      ConcatAppend(a[1..], b);
    }
  }

  /** What `readline()` returns on a binary file: everything up to and including the first
      LF, or the rest of the stream when there is none (empty at end of stream). */
  function LineOf(s: Bytes): (line: Bytes)
    ensures line <= s
    ensures s != [] ==> line != []
    ensures forall i :: 0 <= i < |line| - 1 ==> line[i] != LF
    ensures |line| < |s| ==> line[|line| - 1] == LF
  {
    if s == [] then []
    else if s[0] == LF then [LF]
    else [s[0]] + LineOf(s[1..])
  }

  lemma {:induction false} LineOfPrefix(a: Bytes, rest: Bytes)
    requires a != [] && a[|a| - 1] == LF
    requires forall i :: 0 <= i < |a| - 1 ==> a[i] != LF
    ensures LineOf(a + rest) == a
  {
    if |a| > 1 {
      assert (a + rest)[1..] == a[1..] + rest;
      LineOfPrefix(a[1..], rest);
    }
  }

  /** What `read(n)` returns on a buffered binary file: `n` bytes, or fewer at end of
      stream; everything up to end of stream for `n == -1`; a `ValueError` for any other
      negative `n`. */
  function Take(s: Bytes, n: int): (r: Result<Bytes>)
    ensures r.Err? <==> n < -1
    ensures r.Err? ==> r.error == ValueError
    ensures r.Ok? ==> r.value <= s
    ensures n >= 0 ==> r.Ok? && |r.value| == if n <= |s| then n else |s|
    ensures n == -1 ==> r == Ok(s)
  {
    if n < -1 then Err(ValueError) else if n < 0 || n > |s| then Ok(s) else Ok(s[..n])
  }

  /** A readable binary file object: the bytes not yet read. */
  class Reader {
    var rest: Bytes

    constructor (data: Bytes)
      ensures rest == data
    {
      rest := data;
    }

    method ReadLine() returns (line: Bytes)
      modifies this
      ensures line == LineOf(old(rest)) && rest == old(rest)[|line|..]
    {
      line := LineOf(rest);
      rest := rest[|line|..];
    }

    method Read(n: int) returns (r: Result<Bytes>)
      modifies this
      ensures r == Take(old(rest), n)
      ensures r.Ok? ==> rest == old(rest)[|r.value|..]
      ensures r.Err? ==> rest == old(rest)
    {
      r := Take(rest, n);
      if r.Ok? {
        rest := rest[|r.value|..];
      }
    }
  }

  /** A writable binary file object: every `write` call in order. */
  class Writer {
    var log: seq<Bytes>

    constructor ()
      ensures log == []
    {
      log := [];
    }

    method Write(b: Bytes)
      modifies this
      ensures log == old(log) + [b]
    {
      log := log + [b];
    }
  }
}
