/** Byte strings, the wrappers used for fallible results, and ASCII case folding. */
module Text {

  /** One byte, written as the character with that code so that literals read as in the protocol. */
  type Byte = c: char | c as int < 256 witness '\0'

  type Bytes = seq<Byte>

  const CRLF: Bytes := "\r\n"

  datatype Option<+T> = None | Some(value: T)

  datatype Result<+T, +E> = Ok(value: T) | Err(error: E) {
    predicate IsFailure() {
      Err?
    }

    function PropagateFailure<U>(): Result<U, E>
      requires Err?
    {
      Err(error)
    }

    function Extract(): T
      requires Ok?
    {
      value
    }
  }

  function UpperByte(c: Byte): Byte {
    if 'a' <= c <= 'z' then (c as int - 32) as char else c
  }

  /** Rust's `to_ascii_uppercase`. */
  function Upper(s: Bytes): (r: Bytes)
    ensures |r| == |s|
  {
    seq(|s|, i requires 0 <= i < |s| => UpperByte(s[i]))
  }

  /** Rust's `strip_prefix`. */
  function StripPrefix(s: Bytes, prefix: Bytes): Option<Bytes> {
    if prefix <= s then Some(s[|prefix|..]) else None
  }

  /** Position of the first newline, or the length when there is none. */
  function NewlineAt(s: Bytes): (n: nat)
    ensures n <= |s|
    ensures '\n' !in s[..n]
    ensures n < |s| ==> s[n] == '\n'
  {
    if s == [] || s[0] == '\n' then 0
    else
      var n := NewlineAt(s[1..]);
      assert s[..n + 1] == [s[0]] + s[1..][..n];
      n + 1
  }

  /** A newline-free text followed by CRLF ends at exactly that newline. */
  lemma NewlineAfterText(t: Bytes, rest: Bytes)
    requires '\n' !in t
    ensures NewlineAt(t + CRLF + rest) == |t| + 1
  {
    var s := t + CRLF + rest;
    var n := NewlineAt(s);
    assert s[|t|] == '\r' && s[|t| + 1] == '\n';
    assert forall i :: 0 <= i < |t| ==> s[i] == t[i];
    assert forall i :: 0 <= i < n ==> s[i] in s[..n];
  }

  /** A text up to its first line break; all of it when there is none. */
  function FirstLine(t: Bytes): Bytes {
    var n := NewlineAt(t);
    if n == |t| then t else if n > 0 && t[n - 1] == '\r' then t[..n - 1] else t[..n]
  }

  lemma NewlineIs(s: Bytes, k: nat)
    requires k < |s| && s[k] == '\n' && '\n' !in s[..k]
    ensures NewlineAt(s) == k
  {
  }

  lemma OneLineIsFirst(t: Bytes)
    ensures '\n' !in t ==> FirstLine(t) == t
  {
  }
}
