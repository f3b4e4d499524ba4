/**
  UTF-8 validity and the lossy conversion that Rust applies when raw bytes become a `String`
  (`String::from_utf8`, `String::from_utf8_lossy`).
 */
module Utf8 {
  import opened Text

  /** The encoding of U+FFFD. */
  const REPLACEMENT: Bytes := ['\U{EF}', '\U{BF}', '\U{BD}']

  /** Number of bytes announced by a leading byte; 0 when the byte cannot lead. */
  function Width(b: Byte): (w: nat) {
    var v := b as int;
    if v < 0x80 then 1
    else if 0xC2 <= v <= 0xDF then 2
    else if 0xE0 <= v <= 0xEF then 3
    else if 0xF0 <= v <= 0xF4 then 4
    else 0
  }

  predicate Continues(b: Byte) {
    0x80 <= b as int <= 0xBF
  }

  /** The second byte is restricted so that over-long forms and surrogates are refused. */
  predicate SecondOk(first: Byte, second: Byte) {
    var f, v := first as int, second as int;
    if f == 0xE0 then 0xA0 <= v <= 0xBF
    else if f == 0xED then 0x80 <= v <= 0x9F
    else if f == 0xF0 then 0x90 <= v <= 0xBF
    else if f == 0xF4 then 0x80 <= v <= 0x8F
    else Continues(second)
  }

  /** Length of the well-formed character at the front; 0 when the front is malformed. */
  function CharLen(s: Bytes): (n: nat)
    requires s != []
    ensures n <= |s| && n <= 4
  {
    var w := Width(s[0]);
    if && w <= |s|
       && (w >= 2 ==> SecondOk(s[0], s[1]))
       && (w >= 3 ==> Continues(s[2]))
       && (w == 4 ==> Continues(s[3]))
    then w else 0
  }

  /** Length of the malformed prefix that one replacement character stands for. */
  function BadLen(s: Bytes): (n: nat)
    requires s != [] && CharLen(s) == 0
    ensures 1 <= n <= |s|
  {
    var w := Width(s[0]);
    if w == 0 || |s| < 2 || !SecondOk(s[0], s[1]) then 1
    else if |s| < 3 || !Continues(s[2]) then 2
    else 3
  }

  predicate Valid(s: Bytes) {
    s == [] || (CharLen(s) > 0 && Valid(s[CharLen(s)..]))
  }

  function Lossy(s: Bytes): Bytes {
    if s == [] then []
    else if CharLen(s) > 0 then s[..CharLen(s)] + Lossy(s[CharLen(s)..])
    else REPLACEMENT + Lossy(s[BadLen(s)..])
  }

  /** After a valid text, the whole is valid exactly when what follows is. */
  lemma {:induction false} ValidConcat(a: Bytes, b: Bytes)
    requires Valid(a)
    ensures Valid(a + b) <==> Valid(b)
  {
    if a == [] {
      assert a + b == b;
    } else {
      var n := CharLen(a);
      assert CharLen(a + b) == n;
      assert (a + b)[n..] == a[n..] + b;
      ValidConcat(a[n..], b);
    }
  }

  /** Dropping a trailing ASCII byte from a valid text leaves a valid text. */
  lemma {:induction false} ValidInit(a: Bytes, c: Byte)
    requires c as int < 0x80
    requires Valid(a + [c])
    ensures Valid(a)
  {
    if a != [] {
      var n := CharLen(a + [c]);
      assert (a + [c])[|a|] == c;
      assert CharLen(a) == n;
      assert (a + [c])[n..] == a[n..] + [c];
      ValidInit(a[n..], c);
    }
  }

  /** A valid text cut before an ASCII byte is valid. */
  lemma {:induction false} ValidBefore(s: Bytes, k: nat)
    requires Valid(s) && k < |s| && s[k] as int < 0x80
    ensures Valid(s[..k])
    decreases |s|
  {
    if k > 0 {
      var n := CharLen(s);
      assert n <= k;
      assert CharLen(s[..k]) == n;
      assert s[..k][n..] == s[n..][..k - n];
      ValidBefore(s[n..], k - n);
    }
  }

  lemma {:induction false} AsciiValid(s: Bytes)
    requires forall i :: 0 <= i < |s| ==> s[i] as int < 0x80
    ensures Valid(s)
  {
    if s != [] {
      AsciiValid(s[1..]);
    }
  }

  lemma {:induction false} LossyIsValid(s: Bytes)
    ensures Valid(Lossy(s))
  {
    if s != [] {
      if CharLen(s) > 0 {
        var n := CharLen(s);
        LossyIsValid(s[n..]);
        assert CharLen(s[..n]) == n;
        assert s[..n][n..] == [];
        ValidConcat(s[..n], Lossy(s[n..]));
      } else {
        LossyIsValid(s[BadLen(s)..]);
        assert CharLen(REPLACEMENT) == 3;
        ValidConcat(REPLACEMENT, Lossy(s[BadLen(s)..]));
      }
    }
  }

  lemma {:induction false} LossyKeepsValid(s: Bytes)
    requires Valid(s)
    ensures Lossy(s) == s
  {
    if s != [] {
      LossyKeepsValid(s[CharLen(s)..]);
      assert s == s[..CharLen(s)] + s[CharLen(s)..];
    }
  }

  /** The lossy conversion is the identity on valid texts and on nothing else. */
  lemma {:induction false} LossyExact(s: Bytes)
    ensures Lossy(s) == s <==> Valid(s)
  {
    LossyIsValid(s);
    if Valid(s) {
      LossyKeepsValid(s);
    }
  }

  // ---- Against the encoding of characters ----

  /** A Unicode scalar value: a code point that is no surrogate. */
  type Scalar = c: int | 0 <= c < 0xD800 || 0xE000 <= c < 0x11_0000

  /** A continuation byte with the low six bits. */
  function Six(c: nat): Byte {
    (0x80 + c % 64) as char
  }

  /** The encoding of a character, as section 3 of RFC 3629 defines it. */
  function EncodeScalar(c: Scalar): (b: Bytes)
    ensures 1 <= |b| <= 4
  {
    if c < 0x80 then [c as char]
    else if c < 0x800 then [(0xC0 + c / 64) as char, Six(c)]
    else if c < 0x1_0000 then [(0xE0 + c / 4096) as char, Six(c / 64), Six(c)]
    else [(0xF0 + c / 262144) as char, Six(c / 4096), Six(c / 64), Six(c)]
  }

  function EncodeText(cs: seq<Scalar>): Bytes {
    if cs == [] then [] else EncodeScalar(cs[0]) + EncodeText(cs[1..])
  }

  lemma ScalarIsChar(c: Scalar, rest: Bytes)
    ensures CharLen(EncodeScalar(c) + rest) == |EncodeScalar(c)|
  {
    var s := EncodeScalar(c) + rest;
    if c < 0x80 {
      assert s[0] == c as char;
    } else if c < 0x800 {
      assert s[0] as int == 0xC0 + c / 64 && s[1] == Six(c);
    } else if c < 0x1_0000 {
      assert s[0] as int == 0xE0 + c / 4096 && s[1] as int == 0x80 + c / 64 % 64 && s[2] == Six(c);
    } else {
      assert s[0] as int == 0xF0 + c / 262144 && s[1] as int == 0x80 + c / 4096 % 64;
      assert s[2] == Six(c / 64) && s[3] == Six(c);
    }
  }

  /** The character at the front of a text. */
  function FirstScalar(s: Bytes): int
    requires s != [] && CharLen(s) > 0
  {
    var n := CharLen(s);
    if n == 1 then s[0] as int
    else if n == 2 then (s[0] as int - 0xC0) * 64 + (s[1] as int - 0x80)
    else if n == 3 then (s[0] as int - 0xE0) * 4096 + (s[1] as int - 0x80) * 64 + (s[2] as int - 0x80)
    else
      (s[0] as int - 0xF0) * 262144 + (s[1] as int - 0x80) * 4096 + (s[2] as int - 0x80) * 64 + (s[3] as int - 0x80)
  }

  lemma CharIsScalar(s: Bytes)
    requires s != [] && CharLen(s) > 0
    ensures var c := FirstScalar(s);
            (0 <= c < 0xD800 || 0xE000 <= c < 0x11_0000) && EncodeScalar(c) == s[..CharLen(s)]
  {
    if CharLen(s) == 4 {
      WideIsScalar(s);
    } else if CharLen(s) == 3 {
      TripleIsScalar(s);
    } else if CharLen(s) == 2 {
      var c := FirstScalar(s);
      assert c / 64 == s[0] as int - 0xC0 && c % 64 == s[1] as int - 0x80;
    }
  }

  lemma TripleIsScalar(s: Bytes)
    requires s != [] && CharLen(s) == 3
    ensures var c := FirstScalar(s);
            (0x800 <= c < 0xD800 || 0xE000 <= c < 0x1_0000) && EncodeScalar(c) == s[..3]
  {
    var c := FirstScalar(s);
    assert c / 64 == (s[0] as int - 0xE0) * 64 + (s[1] as int - 0x80) && c % 64 == s[2] as int - 0x80;
    assert c / 4096 == s[0] as int - 0xE0 && c / 64 % 64 == s[1] as int - 0x80;
  }

  lemma WideIsScalar(s: Bytes)
    requires s != [] && CharLen(s) == 4
    ensures var c := FirstScalar(s); 0x1_0000 <= c < 0x11_0000 && EncodeScalar(c) == s[..4]
  {
    var c := FirstScalar(s);
    assert c / 64 == (s[0] as int - 0xF0) * 4096 + (s[1] as int - 0x80) * 64 + (s[2] as int - 0x80);
    assert c % 64 == s[3] as int - 0x80 && c / 64 % 64 == s[2] as int - 0x80;
    assert c / 4096 == (s[0] as int - 0xF0) * 64 + (s[1] as int - 0x80) && c / 4096 % 64 == s[1] as int - 0x80;
    assert c / 262144 == s[0] as int - 0xF0;
  }

  lemma {:induction false} EncodedIsValid(cs: seq<Scalar>)
    ensures Valid(EncodeText(cs))
  {
    hide EncodeScalar, CharLen;
    if cs != [] {
      ScalarIsChar(cs[0], EncodeText(cs[1..]));
      EncodedIsValid(cs[1..]);
      assert EncodeText(cs)[|EncodeScalar(cs[0])|..] == EncodeText(cs[1..]);
    }
  }

  lemma {:induction false} ValidIsEncoded(s: Bytes) returns (cs: seq<Scalar>)
    requires Valid(s)
    ensures EncodeText(cs) == s
  {
    hide EncodeScalar, CharLen, FirstScalar;
    if s == [] {
      cs := [];
    } else {
      var n := CharLen(s);
      CharIsScalar(s);
      var others := ValidIsEncoded(s[n..]);
      cs := [FirstScalar(s)] + others;
      assert cs[1..] == others && s == s[..n] + s[n..];
    }
  }

  /** Bytes are a text exactly when they are the encoding of characters. */
  lemma ValidExactly(s: Bytes)
    ensures Valid(s) <==> exists cs :: EncodeText(cs) == s
  {
    hide Valid, EncodeText;
    if Valid(s) {
      var cs := ValidIsEncoded(s);
    }
    forall cs | EncodeText(cs) == s
      ensures Valid(s)
    {
      EncodedIsValid(cs);
    }
  }

  /** The bytes could go on to be a character. */
  ghost predicate Begins(p: Bytes) {
    exists c: Scalar :: p < EncodeScalar(c)
  }

  lemma PaddedBegins(p: Bytes, pad: Bytes)
    requires p != [] && CharLen(p + pad) > |p|
    ensures Begins(p)
  {
    var s := p + pad;
    CharIsScalar(s);
    assert p == s[..CharLen(s)][..|p|];
    assert p < EncodeScalar(FirstScalar(s));
  }

  /**
    A replacement stands for as many bytes as could have gone on to be a character, and for one byte if none
    could: no longer beginning of the bytes is the beginning of a character.
   */
  lemma BadLenExactly(s: Bytes)
    requires s != [] && CharLen(s) == 0
    ensures BadLen(s) > 1 ==> Begins(s[..BadLen(s)])
    ensures forall n :: BadLen(s) < n <= |s| ==> !Begins(s[..n])
  {
    hide EncodeScalar;
    var k, p := BadLen(s), s[..BadLen(s)];
    if k == 2 {
      var pad := if Width(s[0]) == 3 then ['\U{80}'] else ['\U{80}', '\U{80}'];
      assert (p + pad)[0] == s[0] && (p + pad)[1] == s[1] && (p + pad)[2] == '\U{80}';
      PaddedBegins(p, pad);
    } else if k == 3 {
      var pad := ['\U{80}'];
      assert (p + pad)[0] == s[0] && (p + pad)[1] == s[1] && (p + pad)[2] == s[2] && (p + pad)[3] == '\U{80}';
      PaddedBegins(p, pad);
    }
    forall n, c: Scalar | k < n <= |s|
      ensures !(s[..n] < EncodeScalar(c))
    {
      BeginningIsShort(s, n, c);
    }
  }

  lemma BeginningIsShort(s: Bytes, n: nat, c: Scalar)
    requires s != [] && CharLen(s) == 0 && 1 <= n <= |s|
    ensures s[..n] < EncodeScalar(c) ==> n <= BadLen(s)
  {
    hide EncodeScalar;
    var e := EncodeScalar(c);
    ScalarIsChar(c, []);
    assert e + [] == e;
    assert forall i :: 0 <= i < n ==> s[..n][i] == s[i];
    assert s[..n] < e ==> forall i :: 0 <= i < n ==> e[i] == s[..n][i];
  }

  lemma {:induction false} LossyAfterText(a: Bytes, s: Bytes)
    requires Valid(a)
    ensures Lossy(a + s) == a + Lossy(s)
    decreases |a|
  {
    hide BadLen, CharLen;
    if a == [] {
      assert a + s == s;
    } else {
      var n := CharLen(a);
      CharInFront(a, s);
      assert (a + s)[n..] == a[n..] + s && (a + s)[..n] == a[..n] && a == a[..n] + a[n..];
      LossyAfterText(a[n..], s);
      assert a[..n] + (a[n..] + Lossy(s)) == a + Lossy(s);
    }
  }

  /** After a text, malformed bytes are replaced by U+FFFD and the conversion goes on behind them. */
  lemma LossyReplaces(a: Bytes, s: Bytes)
    requires Valid(a) && s != [] && CharLen(s) == 0
    ensures Lossy(a + s) == a + (['\U{EF}', '\U{BF}', '\U{BD}'] + Lossy(s[BadLen(s)..]))
  {
    hide BadLen, CharLen, Valid;
    LossyAfterText(a, s);
  }

  lemma CharInFront(a: Bytes, s: Bytes)
    requires a != [] && CharLen(a) > 0
    ensures CharLen(a + s) == CharLen(a)
  {
  }
}
