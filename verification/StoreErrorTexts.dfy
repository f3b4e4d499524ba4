/** What the errors of the store are answered with, told by the kind of error. */
module StoreErrorTexts {
  import opened Text
  import opened Decimal
  import opened Commands
  import opened Replies
  import opened Handlers
  import opened WireErrors
  import Utf8

  /** The text a failed write is answered with; `text` is the store's own. */
  function WriteText(op: WriteOp, e: StoreError, text: Bytes): Bytes {
    if op.WPut? then "store error: " + text
    else if e.NoNamespace? then "namespace not found: " + op.ns
    else if e.Missing? && (op.WDelete? || op.WDelIf?) then "not found"
    else if e.Conflict? && (op.WPutIf? || op.WDelIf?) then "VERSIONCONFLICT current=" + Print(e.current)
    else if e.Invalid? && op.WPutIf? then "validation failed: " + e.detail
    else if !op.WDelPrefix? then "internal error: " + (op.ns + "/" + Utf8.Lossy(op.key) + ": " + text)
    else if e.TooManyMatches? then "PREFIXTOOLARGE matched=" + (Print(e.matched) + " limit=" + Print(e.cap))
    else if e.Storage? && Contains(e.detail, "empty prefix") then "bad argument: " + e.detail
    else "internal error: " + (op.ns + ": " + text)
  }

  /** Every error of every write is answered with that text. */
  lemma WriteErrorIsTold(op: WriteOp, e: StoreError, text: Bytes)
    ensures ErrorText(WriteError(op, e, text)) == WriteText(op, e, text)
  {
    hide Print, Utf8.Lossy, Contains;
    assert "not found" + [] == "not found";
  }

  /** The text a failed GET is answered with. */
  function GetText(ns: Bytes, key: Bytes, e: StoreError, text: Bytes): Bytes {
    if e.Missing? then "not found"
    else if e.NoNamespace? then "namespace not found: " + ns
    else "internal error: " + (ns + "/" + Utf8.Lossy(key) + ": " + text)
  }

  /** The text a failed LIST is answered with. */
  function ListText(ns: Bytes, e: StoreError, text: Bytes): Bytes {
    if e.NoNamespace? then "namespace not found: " + ns
    else if e.BadCursor? then "bad argument: " + e.detail
    else "internal error: " + (ns + ": " + text)
  }

  /** The text a failed VERSIONS is answered with, whatever the error. */
  function VersionsText(ns: Bytes, key: Bytes, text: Bytes): Bytes {
    "internal error: " + (ns + "/" + Utf8.Lossy(key) + ": " + text)
  }

  /** A GET gives the store's entry, with its metadata exactly when that was asked for, or tells of the error. */
  lemma GetIsTold<S>(b: Backend<S>, s: S, ns: Bytes, key: Bytes, version: Option<U64>, withMeta: bool)
    ensures var r := HandleGet(b, s, ns, key, version, withMeta);
            match b.get(s, ns, key, version)
            case Ok(e) => r == Ok(EntryFields(e, withMeta))
            case Err(e) => r.Err? && ErrorText(r.error) == GetText(ns, key, e, b.storeErrorText(e))
  {
    hide Utf8.Lossy, EntryFields;
    assert "not found" + [] == "not found";
  }

  /** A LIST gives the store's page or tells of the error. */
  lemma ListIsTold<S>(b: Backend<S>, s: S, ns: Bytes, prefix: Option<Bytes>, cursor: Option<Bytes>, limit: U64)
    ensures var r := HandleList(b, s, ns, prefix, cursor, limit);
            match b.list(s, ns, prefix, cursor, limit)
            case Ok(p) => r == Ok(PageFields(p))
            case Err(e) => r.Err? && ErrorText(r.error) == ListText(ns, e, b.storeErrorText(e))
  {
    hide PageFields;
  }

  /** VERSIONS gives the store's history or tells of the error. */
  lemma VersionsIsTold<S>(b: Backend<S>, s: S, ns: Bytes, key: Bytes, limit: U64, from: Option<U64>)
    ensures var r := HandleVersions(b, s, ns, key, limit, from);
            match b.versions(s, ns, key, limit, from)
            case Ok(vs) => r == Ok(HistoryFields(vs))
            case Err(e) => r.Err? && ErrorText(r.error) == VersionsText(ns, key, b.storeErrorText(e))
  {
    hide HistoryFields, Utf8.Lossy;
  }

  /** LIST, VERSIONS and NAMESPACE LIST ask for at most the given number, and for at most 100 if none is given. */
  lemma LimitsArePassed<S>(b: Backend<S>, s: S, c: Command)
    requires c.List? || c.Versions? || c.NamespaceList?
    ensures var limit := if c.limit.Some? then c.limit.value else 100;
            && (c.List? ==> Dispatch(b, s, c) == (s, HandleList(b, s, c.ns, c.prefixFilter, c.cursor, limit)))
            && (c.Versions? ==> Dispatch(b, s, c) == (s, HandleVersions(b, s, c.ns, c.key, limit, c.from)))
            && (c.NamespaceList? ==> Dispatch(b, s, c) == (s, HandleNamespaces(b, s, c.cursor, limit)))
  {
    hide HandleList, HandleVersions, HandleNamespaces;
  }

  /** PING and HEALTH are answered without asking the store. */
  lemma ServicesAnswer<S>(b: Backend<S>, s: S)
    ensures Dispatch(b, s, Ping) == (s, Ok([("status", VString("OK")), ("message", VString("PONG"))]))
    ensures Dispatch(b, s, Health) == (s, Ok([("status", VString("OK")), ("message", VString("healthy"))]))
  {
    AfterStatus("message", VString("PONG"));
    AfterStatus("message", VString("healthy"));
  }

  /** AUTH, SUBSCRIBE and UNSUBSCRIBE that get to the dispatcher, as those inside pipelines do, do nothing. */
  lemma MisplacedIsTold<S>(b: Backend<S>, s: S, c: Command)
    requires c.Auth? || c.Subscribe? || c.Unsubscribe?
    ensures var (s', r) := Dispatch(b, s, c);
            && s' == s && r.Err?
            && (c.Auth? ==> ErrorText(r.error) == "internal error: " + AUTH_REACHED_TEXT)
            && (c.Subscribe? ==> ErrorText(r.error) == "bad argument: " + SUBSCRIBE_REACHED_TEXT)
            && (c.Unsubscribe? ==> ErrorText(r.error) == "bad argument: " + "UNSUBSCRIBE: no active subscription")
  {
    hide HandleWrite, HandleGet, HandleList, HandleVersions, HandleNamespaces, HandleInfo;
  }
}
