/** How the client turns a server's error text back into a structured store error. */
module WireErrors {
  import opened Text
  import opened Decimal
  import opened Commands

  datatype StoreError =
    | Missing
    | NoNamespace(detail: Bytes)
    | NamespaceTaken(detail: Bytes)
    | NamespaceInUse(detail: Bytes)
    | BadCursor(detail: Bytes)
    | Invalid(detail: Bytes)
    | Conflict(current: U64)
    | TooManyMatches(matched: U64, cap: U64)
    | Storage(detail: Bytes)
    | Disconnected(detail: Bytes)

  // ---- Text functions of the standard library ----

  /** Length of the whitespace character at the front of a UTF-8 text; 0 when there is none. */
  function SpaceLen(s: Bytes): (n: nat)
    ensures n <= |s|
  {
    if s == [] then 0
    else if '\t' <= s[0] <= '\r' || s[0] == ' ' then 1
    else if |s| >= 2 && s[0] == '\U{C2}' && (s[1] == '\U{85}' || s[1] == '\U{A0}') then 2
    else if |s| >= 3 && IsWideSpace(s[0], s[1], s[2]) then 3
    else 0
  }

  predicate IsWideSpace(a: Byte, b: Byte, c: Byte) {
    || (a == '\U{E1}' && b == '\U{9A}' && c == '\U{80}')
    || (a == '\U{E2}' && b == '\U{80}'
        && ('\U{80}' <= c <= '\U{8A}' || c == '\U{A8}' || c == '\U{A9}' || c == '\U{AF}'))
    || (a == '\U{E2}' && b == '\U{81}' && c == '\U{9F}')
    || (a == '\U{E3}' && b == '\U{80}' && c == '\U{80}')
  }

  /** `trim_start`. */
  function TrimStart(s: Bytes): (t: Bytes)
    ensures |t| <= |s| && SpaceLen(t) == 0
  {
    if SpaceLen(s) > 0 then TrimStart(s[SpaceLen(s)..]) else s
  }

  /** Length of the run of non-whitespace at the front. */
  function WordLen(s: Bytes): (n: nat)
    ensures n <= |s|
    ensures s != [] && SpaceLen(s) == 0 ==> n > 0
  {
    if s == [] || SpaceLen(s) > 0 then 0 else 1 + WordLen(s[1..])
  }

  /** `split_whitespace`. */
  function Words(s: Bytes): seq<Bytes>
    decreases |s|
  {
    var t := TrimStart(s);
    if t == [] then [] else [t[..WordLen(t)]] + Words(t[WordLen(t)..])
  }

  predicate Contains(s: Bytes, part: Bytes) {
    exists i :: 0 <= i <= |s| && part <= s[i..]
  }

  // ---- The client's decoder ----

  /** `parse_version_conflict`. */
  function ConflictOf(msg: Bytes): Option<U64> {
    match StripPrefix(msg, "VERSIONCONFLICT ")
    case None => None
    case Some(body) =>
      match StripPrefix(TrimStart(body), "current=")
      case None => None
      case Some(number) => ParseU64(number)
  }

  /** The last `matched=` and `limit=` among the words. */
  function Counts(words: seq<Bytes>, matched: Option<U64>, cap: Option<U64>): (Option<U64>, Option<U64>) {
    if words == [] then (matched, cap)
    else
      var m, c := StripPrefix(words[0], "matched="), StripPrefix(words[0], "limit=");
      if m.Some? then Counts(words[1..], ParseU64(m.value), cap)
      else if c.Some? then Counts(words[1..], matched, ParseU64(c.value))
      else Counts(words[1..], matched, cap)
  }

  /** `parse_prefix_too_large`. */
  function OverflowOf(msg: Bytes): Option<(U64, U64)> {
    match StripPrefix(msg, "PREFIXTOOLARGE ")
    case None => None
    case Some(body) =>
      match Counts(Words(TrimStart(body)), None, None)
      case (Some(m), Some(c)) => Some((m, c))
      case _ => None
  }

  /** The loop of `parse_prefix_too_large` over the words. */
  method ScanCounts(words: seq<Bytes>) returns (matched: Option<U64>, cap: Option<U64>)
    ensures (matched, cap) == Counts(words, None, None)
  {
    hide ParseU64, StripPrefix;
    matched, cap := None, None;
    var i := 0;
    assert words[0..] == words;
    while i < |words|
      invariant 0 <= i <= |words|
      invariant Counts(words[i..], matched, cap) == Counts(words, None, None)
    {
      assert words[i..][1..] == words[i + 1..];
      var m, c := StripPrefix(words[i], "matched="), StripPrefix(words[i], "limit=");
      if m.Some? {
        matched := ParseU64(m.value);
      } else if c.Some? {
        cap := ParseU64(c.value);
      }
      i := i + 1;
    }
  }

  /** `client_err` on a server error text. */
  function Decoded(msg: Bytes): StoreError {
    if ConflictOf(msg).Some? then Conflict(ConflictOf(msg).value)
    else if OverflowOf(msg).Some? then TooManyMatches(OverflowOf(msg).value.0, OverflowOf(msg).value.1)
    else if Contains(msg, "not found") then Missing
    else if Contains(msg, "namespace not found") then NoNamespace(msg)
    else if Contains(msg, "namespace already exists") then NamespaceTaken(msg)
    else if Contains(msg, "namespace not empty") then NamespaceInUse(msg)
    else if Contains(msg, "invalid cursor") then BadCursor(msg)
    else Storage(msg)
  }

  // ---- What survives ----

  lemma ConflictText(current: U64)
    ensures ErrorText(VersionConflict(current)) == "VERSIONCONFLICT " + ("current=" + Print(current))
  {
    hide Print;
    assert "VERSIONCONFLICT current=" == "VERSIONCONFLICT " + "current=";
  }

  lemma ConflictIsDecoded(current: U64)
    ensures ConflictOf(ErrorText(VersionConflict(current))) == Some(current)
  {
    hide ParseU64, Print, StripPrefix, ErrorText;
    var body := "current=" + Print(current);
    ConflictText(current);
    Stripped("VERSIONCONFLICT ", body);
    assert body[0] == 'c';
    assert TrimStart(body) == body;
    Stripped("current=", Print(current));
    ParsePrintU64(current);
  }

  lemma {:induction false} DigitsAreOneWord(s: Bytes, rest: Bytes)
    requires forall i :: 0 <= i < |s| ==> SpaceLen(s[i..] + rest) == 0
    requires rest == [] || SpaceLen(rest) > 0
    ensures WordLen(s + rest) == |s|
  {
    if s == [] {
      assert s + rest == rest;
    } else {
      assert s[0..] == s;
      assert (s + rest)[1..] == s[1..] + rest;
      forall i | 0 <= i < |s[1..]|
        ensures SpaceLen(s[1..][i..] + rest) == 0
      {
        assert s[1..][i..] == s[i + 1..];
      }
      DigitsAreOneWord(s[1..], rest);
    }
  }

  predicate Visible(s: Bytes) {
    forall i :: 0 <= i < |s| ==> '!' <= s[i] <= '~'
  }

  /** A visible ASCII word at the front, followed by a space or the end. */
  lemma WordAtFront(word: Bytes, rest: Bytes)
    requires Visible(word) && word != []
    requires rest == [] || rest[0] == ' '
    ensures Words(word + rest) == [word] + Words(rest)
  {
    var s := word + rest;
    forall i | 0 <= i < |word|
      ensures SpaceLen(word[i..] + rest) == 0
    {
      assert (word[i..] + rest)[0] == word[i];
    }
    DigitsAreOneWord(word, rest);
    assert s[0] == word[0] && SpaceLen(s) == 0;
    assert s[..|word|] == word && s[|word|..] == rest;
  }

  lemma SpaceIsTrimmed(s: Bytes)
    ensures Words(" " + s) == Words(s)
  {
    assert (" " + s)[1..] == s;
    assert TrimStart(" " + s) == TrimStart(s);
  }

  lemma CountsAreWords(matched: U64, cap: U64)
    ensures Words("matched=" + Print(matched) + " limit=" + Print(cap))
            == ["matched=" + Print(matched), "limit=" + Print(cap)]
  {
    hide Words, TrimStart, Print;
    var first, second := "matched=" + Print(matched), "limit=" + Print(cap);
    VisibleDigits(matched);
    VisibleDigits(cap);
    WordAtFront(first, " " + second);
    assert first + (" " + second) == first + " limit=" + Print(cap);
    SpaceIsTrimmed(second);
    WordAtFront(second, []);
    assert second + [] == second;
    NoWords();
  }

  lemma VisibleDigits(n: nat)
    ensures Visible(Print(n))
  {
  }

  lemma NoWords()
    ensures Words([]) == []
  {
  }

  lemma Stripped(prefix: Bytes, body: Bytes)
    ensures StripPrefix(prefix + body, prefix) == Some(body)
  {
  }

  lemma OverflowText(matched: U64, cap: U64)
    ensures ErrorText(PrefixTooLarge(matched, cap))
            == "PREFIXTOOLARGE " + ("matched=" + Print(matched) + " limit=" + Print(cap))
  {
    hide Print;
    Regrouped("PREFIXTOOLARGE ", "matched=", Print(matched), " limit=", Print(cap));
    assert "PREFIXTOOLARGE matched=" == "PREFIXTOOLARGE " + "matched=";
  }

  lemma Regrouped(a: Bytes, b: Bytes, c: Bytes, d: Bytes, e: Bytes)
    ensures (a + b) + (c + d + e) == a + (b + c + d + e)
  {
  }

  lemma OverflowIsDecoded(matched: U64, cap: U64)
    ensures OverflowOf(ErrorText(PrefixTooLarge(matched, cap))) == Some((matched, cap))
  {
    hide ParseU64, Print, Words, StripPrefix, ErrorText, Counts;
    var body := "matched=" + Print(matched) + " limit=" + Print(cap);
    OverflowText(matched, cap);
    Stripped("PREFIXTOOLARGE ", body);
    assert body[0] == 'm';
    assert TrimStart(body) == body;
    CountsAreWords(matched, cap);
    CountsOfTwo(matched, cap);
  }

  lemma CountsOfTwo(matched: U64, cap: U64)
    ensures Counts(["matched=" + Print(matched), "limit=" + Print(cap)], None, None) == (Some(matched), Some(cap))
  {
    hide ParseU64, Print;
    var first, second := "matched=" + Print(matched), "limit=" + Print(cap);
    assert first[|"matched="|..] == Print(matched);
    assert second[|"limit="|..] == Print(cap);
    assert second[0] == 'l';
    ParsePrintU64(matched);
    ParsePrintU64(cap);
    assert [first, second][1..] == [second];
    assert [second][1..] == [];
    assert Counts([second], Some(matched), None) == Counts([], Some(matched), Some(cap));
  }

  /** Every other error text starts in lower case. */
  lemma OthersAreLowerCase(e: CommandError)
    requires !e.VersionConflict? && !e.PrefixTooLarge?
    ensures ErrorText(e) != [] && 'a' <= ErrorText(e)[0] <= 'z'
  {
    hide ComplaintText;
  }

  lemma DigitsAreOneLine(prefix: Bytes, n: nat, infix: Bytes, m: nat)
    requires '\n' !in prefix && '\n' !in infix
    ensures FirstLine(prefix + Print(n)) == prefix + Print(n)
    ensures FirstLine(prefix + (Print(n) + infix + Print(m))) == prefix + (Print(n) + infix + Print(m))
  {
    hide FirstLine, Print;
    VisibleDigits(n);
    VisibleDigits(m);
    OneLineIsFirst(prefix + Print(n));
    OneLineIsFirst(prefix + (Print(n) + infix + Print(m)));
  }

  lemma StructuredAreOneLine(e: CommandError)
    requires e.VersionConflict? || e.PrefixTooLarge?
    ensures FirstLine(ErrorText(e)) == ErrorText(e)
  {
    hide FirstLine, Print;
    if e.VersionConflict? {
      DigitsAreOneLine(ErrorPrefix(e), e.current, [], 0);
    } else {
      DigitsAreOneLine(ErrorPrefix(e), e.matched, " limit=", e.cap);
    }
  }

  lemma FirstLineStartsAlike(t: Bytes)
    requires t != [] && 'a' <= t[0] <= 'z'
    ensures FirstLine(t) != [] && FirstLine(t)[0] == t[0]
  {
  }

  /**
    The two structured errors decode to exactly the values they carry, and the line received of any
    other command error decodes to neither of them.
   */
  lemma StructuredErrorsSurvive(e: CommandError, n: U64, m: U64)
    ensures Decoded(FirstLine(ErrorText(e))) == Conflict(n) <==> e == VersionConflict(n)
    ensures Decoded(FirstLine(ErrorText(e))) == TooManyMatches(n, m) <==> e == PrefixTooLarge(n, m)
  {
    hide Contains, Counts, Words, TrimStart, ParseU64, ErrorText, FirstLine;
    match e
    case VersionConflict(current) =>
      StructuredAreOneLine(e);
      ConflictIsDecoded(current);
    case PrefixTooLarge(matched, cap) =>
      StructuredAreOneLine(e);
      OverflowIsDecoded(matched, cap);
      OverflowIsNoConflict(matched, cap);
    case _ =>
      OthersAreLowerCase(e);
      FirstLineStartsAlike(ErrorText(e));
  }

  lemma OverflowIsNoConflict(matched: U64, cap: U64)
    ensures ConflictOf(ErrorText(PrefixTooLarge(matched, cap))) == None
  {
    assert ErrorText(PrefixTooLarge(matched, cap))[0] == 'P';
  }

  // ---- What every error is taken for ----

  lemma ContainsSelf(s: Bytes, tail: Bytes)
    ensures Contains(s + tail, s)
  {
    assert s <= (s + tail)[0..];
  }

  lemma LowerIsUnstructured(s: Bytes)
    requires s != [] && 'a' <= s[0] <= 'z'
    ensures ConflictOf(s).None? && OverflowOf(s).None?
  {
    hide Words, Counts, ParseU64;
  }

  lemma ContainsEnd(s: Bytes, head: Bytes, tail: Bytes)
    requires Contains(s, head + tail)
    ensures Contains(s, tail)
  {
    var i :| 0 <= i <= |s| && head + tail <= s[i..];
    assert s[i..][|head|..] == s[i + |head|..];
    assert tail <= s[i + |head|..];
  }

  lemma ContainedLetters(s: Bytes, part: Bytes, k: nat)
    requires Contains(s, part) && k < |part|
    ensures part[k] in s
  {
    var i :| 0 <= i <= |s| && part <= s[i..];
    assert s[i..][k] == part[k] && s[i..][k] == s[i + k];
  }

  /** A namespace error can never be told from a missing key: the earlier test catches its text. */
  lemma NamespaceBranchIsUnreachable(msg: Bytes)
    ensures !Decoded(msg).NoNamespace?
  {
    hide ConflictOf, OverflowOf, Contains;
    assert "namespace not found" == "namespace " + "not found";
    if Contains(msg, "namespace not found") {
      ContainsEnd(msg, "namespace ", "not found");
    }
  }

  /** What the client takes a line for that is neither a conflict nor an exceeded cap. */
  function TakenFor(line: Bytes): StoreError {
    if Contains(line, "not found") then Missing
    else if Contains(line, "namespace already exists") then NamespaceTaken(line)
    else if Contains(line, "namespace not empty") then NamespaceInUse(line)
    else if Contains(line, "invalid cursor") then BadCursor(line)
    else Storage(line)
  }

  /** Every command error as the client takes it. A missing namespace is always taken for a missing key. */
  lemma ErrorsAreTakenExactly(e: CommandError)
    ensures Decoded(FirstLine(ErrorText(e))) ==
            match e
            case VersionConflict(current) => Conflict(current)
            case PrefixTooLarge(matched, cap) => TooManyMatches(matched, cap)
            case _ => TakenFor(FirstLine(ErrorText(e)))
  {
    hide Contains, ConflictOf, OverflowOf, ErrorText, FirstLine;
    match e
    case VersionConflict(current) => StructuredErrorsSurvive(e, current, 0);
    case PrefixTooLarge(matched, cap) => StructuredErrorsSurvive(e, matched, cap);
    case _ =>
      OthersAreLowerCase(e);
      FirstLineStartsAlike(ErrorText(e));
      LowerIsUnstructured(FirstLine(ErrorText(e)));
      NamespaceBranchIsUnreachable(FirstLine(ErrorText(e)));
  }

  /** The structured errors do not say that something was not found. */
  lemma StructuredSayOtherwise(e: CommandError)
    requires e.VersionConflict? || e.PrefixTooLarge?
    ensures !Contains(FirstLine(ErrorText(e)), "not found")
  {
    hide Contains, FirstLine, Print;
    StructuredAreOneLine(e);
    if Contains(ErrorText(e), "not found") {
      ContainedLetters(ErrorText(e), "not found", 4);
      NoSuchLetter(e);
    }
  }

  lemma NoLetterInDigits(prefix: Bytes, n: nat, infix: Bytes, m: nat)
    requires 'f' !in prefix && 'f' !in infix
    ensures 'f' !in prefix + Print(n) && 'f' !in prefix + (Print(n) + infix + Print(m))
  {
    hide Print;
    VisibleDigits(n);
    VisibleDigits(m);
    assert 'f' !in Print(n) && 'f' !in Print(m);
  }

  lemma NoSuchLetter(e: CommandError)
    requires e.VersionConflict? || e.PrefixTooLarge?
    ensures 'f' !in ErrorText(e)
  {
    hide Print, ErrorPrefix;
    PrefixLetters(e);
    if e.VersionConflict? {
      NoLetterInDigits(ErrorPrefix(e), e.current, [], 0);
    } else {
      NoLetterInDigits(ErrorPrefix(e), e.matched, " limit=", e.cap);
    }
  }

  lemma PrefixLetters(e: CommandError)
    requires e.VersionConflict? || e.PrefixTooLarge?
    ensures 'f' !in ErrorPrefix(e)
  {
  }
}
