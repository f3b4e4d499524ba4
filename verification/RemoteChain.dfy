/**
  Servers stacked as stores: each server's store is a remote store connected to the next server, and the
  last one holds the data.
 */
module RemoteChain {
  import opened Text
  import opened Decimal
  import opened Commands
  import opened Requests
  import opened Replies
  import opened Handlers
  import opened WireErrors
  import opened Dispatcher
  import opened Connection
  import opened Verdicts
  import opened Calls
  import opened Remote
  import Utf8

  /** The store of a server: the data itself, or a link to a server that has such a store. */
  datatype Chain<+S> = Base(store: S) | Hop(link: Link<Chain<S>>)

  /** The data's own write, the servers by their height above it, and when a call reaches each of them. */
  datatype Stack<!S> = Stack(
    base: (S, WriteOp) -> (S, Result<U64, StoreError>),
    sites: nat -> Gate<Chain<S>>,
    times: nat -> Moment)

  const NO_SUCH_STORE: StoreError := Disconnected("no such store")

  /** The server at a height, writing to what lies below it. */
  function GateAt<S>(k: Stack<S>, h: nat): Gate<Chain<S>>
    requires h > 0
    decreases h, 0
  {
    var g := k.sites(h);
    g.(env := g.env.(backend := g.env.backend.(write := (s, op) => ChainWrite(k, h - 1, s, op))))
  }

  /** A write to a store at a height: to the data, or through the connection to the server there. */
  function ChainWrite<S>(k: Stack<S>, h: nat, s: Chain<S>, op: WriteOp): (Chain<S>, Result<U64, StoreError>)
    decreases h, 1
  {
    if h == 0 then
      match s
      case Base(x) => var (x', r) := k.base(x, op); (Base(x'), r)
      case Hop(_) => (s, Err(NO_SUCH_STORE))
    else
      match s
      case Base(_) => (s, Err(NO_SUCH_STORE))
      case Hop(link) => var (link', r) := RemoteWrite(GateAt(k, h), link, op, k.times(h)); (Hop(link'), r)
  }

  /** The store has that height. */
  predicate Shaped<S>(h: nat, s: Chain<S>) {
    if h == 0 then s.Base? else s.Hop? && Shaped(h - 1, s.link.conn.shared.store)
  }

  /** The store has that height, and every connection in it is in normal mode. */
  predicate Stacked<S>(h: nat, s: Chain<S>)
    ensures Stacked(h, s) ==> Shaped(h, s)
  {
    if h == 0 then s.Base? else s.Hop? && s.link.conn.mode.Normal? && Stacked(h - 1, s.link.conn.shared.store)
  }

  /** Nothing is unread at any client on the way. */
  predicate Clear<S>(h: nat, s: Chain<S>)
    requires Shaped(h, s)
  {
    h == 0 || (s.link.unread == [] && Clear(h - 1, s.link.conn.shared.store))
  }

  /** The data at the end. */
  function Bottom<S>(h: nat, s: Chain<S>): S
    requires Shaped(h, s)
  {
    if h == 0 then s.store else Bottom(h - 1, s.link.conn.shared.store)
  }

  /** The operation as it reaches the data. */
  function SentDown(h: nat, op: WriteOp): WriteOp {
    if h == 0 then op else AsSent(op)
  }

  /** Every server on the way runs the operation. */
  predicate AllRun<S>(k: Stack<S>, h: nat, s: Chain<S>, op: WriteOp)
    requires Shaped(h, s)
  {
    h == 0 || (Runs(k.sites(h), s.link.conn, AsSent(op), k.times(h))
        && AllRun(k, h - 1, s.link.conn.shared.store, AsSent(op)))
  }

  /** The answer of the server at the top of the stack. */
  function TopVerdict<S>(k: Stack<S>, h: nat, s: Chain<S>, op: WriteOp): CommandResponse
    requires h > 0 && Shaped(h, s)
  {
    Verdict(GateAt(k, h), s.link.conn, CommandFor(AsSent(op)), k.times(h))
  }

  /** The request fits every server's limits, and every error text on the way is UTF-8. */
  predicate Fitting<S>(k: Stack<S>, h: nat, s: Chain<S>, op: WriteOp)
    requires Shaped(h, s)
  {
    h == 0 ||
    (&& Sendable(RequestFor(op), k.sites(h).env.codec)
     && Fitting(k, h - 1, s.link.conn.shared.store, AsSent(op))
     && Textual(TopVerdict(k, h, s, op)))
  }

  /** No error text on the way has a newline. */
  predicate AllLegible<S>(k: Stack<S>, h: nat, s: Chain<S>, op: WriteOp)
    requires Shaped(h, s)
  {
    h == 0 || (Legible(TopVerdict(k, h, s, op)) && AllLegible(k, h - 1, s.link.conn.shared.store, AsSent(op)))
  }

  /** A result seen through servers. */
  function Chained<S>(k: Stack<S>, h: nat, op: WriteOp, r: Result<U64, StoreError>): Result<U64, StoreError> {
    if h == 0 then r else Relayed(op, Chained(k, h - 1, op, r), k.sites(h).env.backend.storeErrorText)
  }

  /** Every server on the way handled exactly this one command. */
  ghost predicate EachHandledOnce<S>(h: nat, s: Chain<S>, s': Chain<S>, c: Command)
    requires Stacked(h, s) && Stacked(h, s')
  {
    h == 0 ||
    (s'.link.conn.shared.trace == s.link.conn.shared.trace + [c]
        && EachHandledOnce(h - 1, s.link.conn.shared.store, s'.link.conn.shared.store, c))
  }

  lemma SentTwice(op: WriteOp)
    ensures AsSent(AsSent(op)) == AsSent(op)
  {
    hide AsSent, Portable;
    SentUnchangedExactly(op);
    SentUnchangedExactly(AsSent(op));
  }

  lemma GateRuns<S>(k: Stack<S>, h: nat, c: Conn<Chain<S>>, op: WriteOp)
    requires h > 0
    ensures Runs(GateAt(k, h), c, op, k.times(h)) <==> Runs(k.sites(h), c, op, k.times(h))
  {
    hide Admits, RequirementOf;
  }

  /** A remote write that runs keeps the connection in normal mode. */
  lemma WriteKeepsMode<S>(g: Gate<S>, l: Link<S>, op: WriteOp, at: Moment)
    requires l.conn.mode.Normal? && Sendable(RequestFor(op), g.env.codec) && Runs(g, l.conn, AsSent(op), at)
    ensures RemoteWrite(g, l, op, at).0.conn.mode.Normal?
  {
    hide Call, Execute, Sendable, RequestFor, Verdict, Admits, Subscribes, Throttle, RequirementOf;
    CallExecutes(g, l, RequestFor(op), at);
    SentUnchangedExactly(op);
  }

  /**
    A write through a stack of servers of any height, with nothing unread on the way: if every server runs
    it, it runs exactly once on the data, every server handles exactly one command, and the result is the
    data's, seen through the servers. Nothing is unread afterwards exactly when no error text on the way
    has a newline.
   */
  lemma {:induction false} WriteRunsOnce<S>(k: Stack<S>, h: nat, s: Chain<S>, op: WriteOp)
    requires Stacked(h, s) && Clear(h, s) && Fitting(k, h, s, op) && AllRun(k, h, s, op)
    ensures var (s', r) := ChainWrite(k, h, s, op);
            var (x', r0) := k.base(Bottom(h, s), SentDown(h, op));
            && Stacked(h, s') && Bottom(h, s') == x'
            && EachHandledOnce(h, s, s', CommandFor(AsSent(op)))
            && r == Chained(k, h, SentDown(h, op), r0)
            && (Clear(h, s') <==> AllLegible(k, h, s, op))
    decreases h
  {
    hide RemoteWrite, Runs, Sendable, RequestFor, AsSent, Relayed, CommandFor, Textual, Legible, Verdict, Portable;
    if h > 0 {
      var g, l, sent := GateAt(k, h), s.link, AsSent(op);
      var below := l.conn.shared.store;
      GateRuns(k, h, l.conn, sent);
      RemoteWriteRuns(g, l, op, k.times(h));
      RemoteWriteRelays(g, l, op, k.times(h));
      WriteKeepsMode(g, l, op, k.times(h));
      SentTwice(op);
      WriteRunsOnce(k, h - 1, below, sent);
      assert g.env.backend.write(below, sent) == ChainWrite(k, h - 1, below, sent);
    }
  }

  /** If any server on the way refuses, the data are left alone, whatever was unread. */
  lemma {:induction false} RefusalLeavesData<S>(k: Stack<S>, h: nat, s: Chain<S>, op: WriteOp)
    requires Stacked(h, s) && Fitting(k, h, s, op) && !AllRun(k, h, s, op)
    ensures var s' := ChainWrite(k, h, s, op).0; Shaped(h, s') && Bottom(h, s') == Bottom(h, s)
    decreases h
  {
    hide RemoteWrite, Runs, Sendable, RequestFor, AsSent, Relayed, CommandFor, Textual, Verdict, Portable;
    var g, l, sent := GateAt(k, h), s.link, AsSent(op);
    var below := l.conn.shared.store;
    GateRuns(k, h, l.conn, sent);
    RemoteWriteRuns(g, l, op, k.times(h));
    if Runs(g, l.conn, sent, k.times(h)) {
      RefusalLeavesData(k, h - 1, below, sent);
      assert g.env.backend.write(below, sent) == ChainWrite(k, h - 1, below, sent);
    }
  }

  lemma {:induction false} ChainedIsExact<S>(k: Stack<S>, h: nat, op: WriteOp, r: Result<U64, StoreError>, n: U64,
                                             m: U64)
    ensures r.Ok? || Structured(op, r.error) ==> Chained(k, h, op, r) == r
    ensures (op.WPutIf? || op.WDelIf?) ==> (Chained(k, h, op, r) == Err(Conflict(n)) <==> r == Err(Conflict(n)))
    ensures op.WDelPrefix? ==> (Chained(k, h, op, r) == Err(TooManyMatches(n, m)) <==> r == Err(TooManyMatches(n, m)))
    decreases h
  {
    hide Relayed;
    if h > 0 {
      ChainedIsExact(k, h - 1, op, r, n, m);
      RelayIsExact(op, Chained(k, h - 1, op, r), k.sites(h).env.backend.storeErrorText, n, m);
    }
  }

  lemma SameKind(h: nat, op: WriteOp)
    ensures var sent := SentDown(h, op);
            && (sent.WPutIf? <==> op.WPutIf?) && (sent.WDelIf? <==> op.WDelIf?)
                && (sent.WDelPrefix? <==> op.WDelPrefix?)
  {
    hide Utf8.Lossy;
  }

  /**
    However many servers a write goes through, if each of them runs it and nothing is unread on the way, the
    caller sees the data's own
    number, conflict or exceeded cap, and sees a conflict or an exceeded cap only if the data reported
    exactly that.
   */
  lemma ChainIsExact<S>(k: Stack<S>, h: nat, s: Chain<S>, op: WriteOp, n: U64, m: U64)
    requires Stacked(h, s) && Clear(h, s) && Fitting(k, h, s, op) && AllRun(k, h, s, op)
    ensures var r := ChainWrite(k, h, s, op).1;
            var r0 := k.base(Bottom(h, s), SentDown(h, op)).1;
            && (r0.Ok? || Structured(op, r0.error) ==> r == r0)
            && (op.WPutIf? || op.WDelIf? ==> (r == Err(Conflict(n)) <==> r0 == Err(Conflict(n))))
            && (op.WDelPrefix? ==> (r == Err(TooManyMatches(n, m)) <==> r0 == Err(TooManyMatches(n, m))))
  {
    hide ChainWrite, Chained, Fitting, AllRun, Stacked, Bottom, SentDown;
    var sent := SentDown(h, op);
    WriteRunsOnce(k, h, s, op);
    ChainedIsExact(k, h, sent, k.base(Bottom(h, s), sent).1, n, m);
    SameKind(h, op);
  }
}
