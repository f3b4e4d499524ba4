/**
  The failing family of reply pairing: an error text that repeats a name with a line break in it. The rest
  of that text is taken for the reply to the next call.
 */
module Mispairing {
  import opened Text
  import opened Decimal
  import opened Frames
  import opened Commands
  import opened ClientReader
  import opened ClientCodec
  import opened Requests
  import opened Replies
  import opened Handlers
  import opened WireErrors
  import opened Connection
  import opened Verdicts
  import opened Calls
  import opened Pairing
  import opened Remote
  import ServerReader
  import Utf8

  /** A namespace whose name, after a line break, spells the reply of a version conflict. */
  function SplitName(n: U64): Bytes {
    "a" + "\n-" + ErrorText(VersionConflict(n))
  }

  lemma ConflictTextIsLine(n: U64)
    ensures '\n' !in ErrorText(VersionConflict(n)) && Utf8.Valid(ErrorText(VersionConflict(n)))
  {
    hide Print, Utf8.Valid;
    VisibleDigits(n);
    ServerReader.PlainLine("VERSIONCONFLICT current=");
    ServerReader.PlainLine(Print(n));
    ServerReader.JoinedLine("VERSIONCONFLICT current=", Print(n));
  }

  lemma SplitText(n: U64)
    ensures ErrorText(NamespaceNotFound(SplitName(n)))
            == "namespace not found: a" + "\n-" + ErrorText(VersionConflict(n))
  {
    hide Print;
    var tail := ErrorText(VersionConflict(n));
    assert ErrorText(NamespaceNotFound(SplitName(n))) == "namespace not found: " + ("a" + "\n-" + tail);
    Associated("namespace not found: ", "a", "\n-", tail);
    assert "namespace not found: " + "a" == "namespace not found: a";
  }

  lemma Associated(a: Bytes, b: Bytes, c: Bytes, d: Bytes)
    ensures a + (b + c + d) == a + b + c + d
  {
  }

  lemma SplitTextIsUtf8(n: U64)
    ensures Utf8.Valid("namespace not found: a" + "\n-" + ErrorText(VersionConflict(n)))
  {
    hide ErrorText, Utf8.Valid;
    ConflictTextIsLine(n);
    Utf8.AsciiValid("namespace not found: a" + "\n-");
    Utf8.ValidConcat("namespace not found: a" + "\n-", ErrorText(VersionConflict(n)));
  }

  /** A failed GET on that namespace leaves exactly the reply of a version conflict unread. */
  lemma ConflictIsLeftOver<S>(g: Gate<S>, l: Link<S>, key: Bytes, at: Moment, n: U64)
    requires l.conn.mode.Normal? && l.unread == [] && Sendable(AskGet(SplitName(n), key, None), g.env.codec)
    requires Verdict(g, l.conn, Get(SplitName(n), Utf8.Lossy(key), None, false), at)
            == Failure(NamespaceNotFound(SplitName(n)))
    ensures Call(g, l, AskGet(SplitName(n), key, None), at).0.unread
            == Encode(SimpleError(ErrorText(VersionConflict(n))))
  {
    hide Call, Aftermath, Verdict, Dispatches, Reaches, ReadValue, Sendable, Utf8.Lossy, Utf8.Valid, ErrorText;
    hide FirstLine, SplitName;
    CallExecutes(g, l, AskGet(SplitName(n), key, None), at);
    SplitText(n);
    SplitTextIsUtf8(n);
    var tail := ErrorText(VersionConflict(n));
    RestIsNextReply("namespace not found: a", tail, []);
    assert Encode(SimpleError(tail)) + [] == Encode(SimpleError(tail));
  }

  /** With that unread, any call gets the conflict for its reply, and its own reply stays unread. */
  lemma LeftOverIsTaken<S>(g: Gate<S>, l: Link<S>, q: Request, at: Moment, n: U64)
    requires l.conn.mode.Normal? && Sendable(q, g.env.codec)
    requires l.unread == Encode(SimpleError(ErrorText(VersionConflict(n))))
    ensures var (l', t) := Call(g, l, q, at);
            && t.Took? && t.value == RError(ErrorText(VersionConflict(n)))
            && l'.unread == Encode(VerdictFrame(g, l.conn, q, at))
  {
    hide Call, Aftermath, Verdict, Dispatches, Reaches, ReadValue, Sendable, Encode, ErrorText, ToFrame;
    CallExecutes(g, l, q, at);
    ConflictTextIsLine(n);
    FrameIsTaken(SimpleError(ErrorText(VersionConflict(n))), Encode(VerdictFrame(g, l.conn, q, at)));
  }

  /**
    Reply pairing at the client fails on this input: a GET on a missing namespace with such a name, then any
    conditional write. The write runs at the server, and whatever it returns there, success included, its
    caller is told of a conflict with the version spelled in the name; the write's own reply is left for
    the call after it.
   */
  lemma WriteIsToldAConflict<S>(g: Gate<S>, l: Link<S>, key: Bytes, at: Moment, op: WriteOp, at': Moment, n: U64)
    requires l.conn.mode.Normal? && l.unread == [] && Sendable(AskGet(SplitName(n), key, None), g.env.codec)
    requires Verdict(g, l.conn, Get(SplitName(n), Utf8.Lossy(key), None, false), at)
            == Failure(NamespaceNotFound(SplitName(n)))
    requires op.WPutIf? && Sendable(RequestFor(op), g.env.codec)
    requires var l1 := Call(g, l, AskGet(SplitName(n), key, None), at).0;
             l1.conn.mode.Normal? && Runs(g, l1.conn, AsSent(op), at')
    ensures var l1 := Call(g, l, AskGet(SplitName(n), key, None), at).0;
            var (l2, result) := RemoteWrite(g, l1, op, at');
            && result == Err(Conflict(n))
            && l2.conn.shared.store == g.env.backend.write(l1.conn.shared.store, AsSent(op)).0
            && l2.unread == Encode(VerdictFrame(g, l1.conn, RequestFor(op), at'))
  {
    hide Call, Verdict, Sendable, Utf8.Lossy, Runs, Encode, VerdictFrame, ErrorText, Decoded, RequestFor, CommandFor;
    hide AsSent, Portable;
    ConflictIsLeftOver(g, l, key, at, n);
    var l1 := Call(g, l, AskGet(SplitName(n), key, None), at).0;
    LeftOverIsTaken(g, l1, RequestFor(op), at', n);
    RemoteWriteRuns(g, l1, op, at');
    ConflictIsSeen(n);
  }

  lemma ConflictIsSeen(n: U64)
    ensures Decoded(ErrorText(VersionConflict(n))) == Conflict(n)
  {
    hide ErrorText, Decoded, FirstLine;
    StructuredErrorsSurvive(VersionConflict(n), n, 0);
    StructuredAreOneLine(VersionConflict(n));
  }
}
