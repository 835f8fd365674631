/**
 The Bolt connection as a state machine over the events it observes: frames arriving, page
 fetches completing, and the statement's deadline being found to have passed as a fetch
 starts. Between two events the connection is idle, waits for a page, or has closed; an
 event is worked off together with every queued message it lets through.

 The end of the script is the client closing the channel. The trace only records what
 happened and decides nothing.
 */
module BoltMachine {
  import opened Base

  // ----- messages

  datatype IntArg = Missing | NotAnInt | Int(value: int)

  /** Client messages; boolean fields say what the services the connection calls decide about the message. */
  datatype Msg =
    | Hello
    | Logon(accepted: bool)
    | Logoff
    | Goodbye
    | Reset
    | Run(prepares: bool)
    | Pull(qid: IntArg, n: IntArg)
    | Discard(qid: IntArg, n: IntArg)
    | Route(succeeds: bool)
    | Telemetry
    | Begin
    | Commit
    | Rollback

  /** One result row; a row whose values have no Bolt form cannot be sent. */
  datatype Row = Row(id: nat, sendable: bool)

  datatype FetchResult = Page(rows: seq<Row>, next: Option<nat>, sameColumns: bool) | PageError

  datatype Event = Arrives(msg: Msg) | Malformed | Fetched(result: FetchResult) | DeadlinePassed

  datatype ServerMsg = Success(hasMore: Option<bool>) | Failure | Ignored | Record(row: Row)

  // ----- the connection

  datatype BoltState = Negotiation | Authentication | Ready | Streaming | Failed

  datatype Pending = Pending(started: bool, rows: seq<Row>, next: Option<nat>)

  datatype Session = Session(authenticated: bool, pending: Option<Pending>)

  datatype Closing = ChannelClosed | SaidGoodbye | LogonRefused | CutShort(msg: Msg, goodbye: bool)

  /** A page fetch for row message `msg`, which has given out `given` and may give out `left` more rows. */
  datatype Fetch = Fetch(msg: Msg, given: seq<Row>, left: nat, cursor: Option<nat>, starting: bool)

  datatype Mode = Idle | Fetching(fetch: Fetch) | Closed(closing: Closing)

  /**
   What became of a server cursor. A fetch that completed used its cursor. A fetch that was interrupted
   may not even have begun, and its cursor was taken out of the result, so nobody releases it.
   */
  datatype Fate = Issued | FetchedWith | Released | Forgotten | Interrupted

  datatype Deed = Deed(fate: Fate, cursor: nat)

  /**
   A row message that ended: the number of its statement, the rows given before it and by it, what it left of
   the result, its reply (none when the client left during its fetch), and all rows fetched by then.
   */
  datatype Served =
    Served(statement: nat, msg: Msg, before: seq<Row>, given: seq<Row>, left: Pending, reply: Option<ServerMsg>,
           pages: seq<Row>)

  /** Cursor deeds, row messages that ended, and for the current statement the rows fetched and those they gave out. */
  datatype Trace = Trace(deeds: multiset<Deed>, served: seq<Served>, statement: nat, pages: seq<Row>, before: seq<Row>)

  datatype Conn = Conn(state: BoltState, s: Session, mode: Mode, queued: seq<Msg>, sent: seq<ServerMsg>, trace: Trace)

  const START := Conn(Negotiation, Session(false, None), Idle, [], [], Trace(multiset{}, [], 0, [], []))

  // ----- small steps

  function Send(c: Conn, m: ServerMsg): Conn { c.(sent := c.sent + [m]) }

  function Note(t: Trace, fate: Fate, cursor: Option<nat>): Trace {
    if cursor.Some? then t.(deeds := t.deeds + multiset{Deed(fate, cursor.value)}) else t
  }

  function Held(s: Session): Option<nat> {
    if s.pending.Some? then s.pending.value.next else None
  }

  /** `clear_pending_result`: forgets the result and releases the cursor it holds, for an authenticated client. */
  function Clear(c: Conn): Conn {
    c.(s := c.s.(pending := None),
       trace := Note(c.trace, if c.s.authenticated then Released else Forgotten, Held(c.s)))
  }

  function NewStatement(t: Trace): Trace { t.(statement := t.statement + 1, pages := [], before := []) }

  /** The messages a state accepts, beside GOODBYE and the row messages. */
  predicate Accepts(state: BoltState, msg: Msg) {
    match msg
    case Hello => state.Negotiation?
    case Logon(accepted) => state.Authentication? && accepted
    case Reset => state.Ready? || state.Streaming? || state.Failed?
    case Logoff => state.Ready?
    case Run(prepares) => state.Ready? && prepares
    case Route(succeeds) => state.Ready? && succeeds
    case Telemetry => state.Ready?
    case _ => false
  }

  /** The state an accepted message leads to. */
  function After(state: BoltState, msg: Msg, authenticated: bool): BoltState {
    match msg
    case Hello => Authentication
    case Logoff => Authentication
    case Run(_) => Streaming
    case Reset => if state.Failed? && !authenticated then Authentication else Ready
    case _ => Ready
  }

  /** A message that gives out no rows. A failed connection ignores all but RESET and GOODBYE. */
  function Respond(c: Conn, msg: Msg): Conn {
    if msg.Goodbye? then Clear(c).(mode := Closed(SaidGoodbye))
    else if Accepts(c.state, msg) then
      Send(match msg
           case Reset => Clear(c)
           case Logoff => Clear(c).(s := Session(false, None))
           case Logon(_) => c.(s := c.s.(authenticated := true))
           case Run(_) => c.(s := c.s.(pending := Some(Pending(false, [], None))),
                          trace := NewStatement(c.trace))
           case _ => c,
           Success(None)).(state := After(c.state, msg, c.s.authenticated))
    else if c.state.Failed? then Send(c, Ignored)
    else if c.state.Authentication? && msg.Logon? then Send(c, Failure).(mode := Closed(LogonRefused))
    else Send(c, Failure).(state := Failed)
  }

  // ----- rows

  /** `bolt_stream_count`: all rows, a positive number of rows, or a protocol error. */
  function StreamCount(qid: IntArg, n: IntArg): Result<Option<nat>, ()> {
    if !qid.Missing? && qid != Int(-1) then Err(())
    else
      var count := if n.Int? then n.value else -1;
      if count == -1 then Ok(None)
      else if count <= 0 then Err(())
      else Ok(Some(count))
  }

  predicate GivesRows(state: BoltState, msg: Msg) { state.Streaming? && (msg.Pull? || msg.Discard?) }

  function CountOf(msg: Msg): Result<Option<nat>, ()>
    requires msg.Pull? || msg.Discard?
  {
    StreamCount(msg.qid, msg.n)
  }

  function Limit(count: Option<nat>): nat {
    if count.Some? then count.value else U64_MAX
  }

  function LeftOf(c: Conn): Pending {
    if c.s.pending.Some? then c.s.pending.value else Pending(true, [], None)
  }

  function HasMore(p: Pending): bool { p.rows != [] || p.next.Some? }

  function Log(c: Conn, msg: Msg, given: seq<Row>, reply: Option<ServerMsg>): Conn {
    var e := Served(c.trace.statement, msg, c.trace.before, given, LeftOf(c), reply, c.trace.pages);
    c.(trace := c.trace.(served := c.trace.served + [e], before := c.trace.before + given))
  }

  /** Ends a row message that gave out what it could. */
  function Summarize(c: Conn, msg: Msg, given: seq<Row>): Conn {
    var more := HasMore(LeftOf(c));
    var c := Send(Log(c, msg, given, Some(Success(Some(more)))), Success(Some(more)));
    if more then c else Clear(c).(state := Ready)
  }

  /** Ends a row message that failed. */
  function FailRows(c: Conn, msg: Msg, given: seq<Row>): Conn {
    Clear(Send(Log(c, msg, given, Some(Failure)), Failure)).(state := Failed)
  }

  /** Takes the front row out of the buffer. */
  function SkipRow(c: Conn, p: Pending): Conn
    requires p.rows != []
  {
    c.(s := c.s.(pending := Some(p.(rows := p.rows[1..]))))
  }

  /** The front row is given out: sent by PULL, discarded by DISCARD. */
  function GiveRow(c: Conn, msg: Msg, p: Pending): Conn
    requires p.rows != []
  {
    if msg.Pull? then Send(SkipRow(c, p), Record(p.rows[0])) else SkipRow(c, p)
  }

  /** The first fetch of a result has no cursor. */
  function CursorOf(p: Pending): Option<nat> { if p.started then p.next else None }

  /** What a fetch leaves of the result: its cursor is taken. */
  function Taken(p: Pending): Pending { if p.started then p.(next := None) else p.(started := true) }

  /** The cursor leaves the pending result and a fetch with it starts. */
  function StartFetch(c: Conn, msg: Msg, given: seq<Row>, left: nat, p: Pending): Conn {
    c.(s := c.s.(pending := Some(Taken(p))), mode := Fetching(Fetch(msg, given, left, CursorOf(p), true)))
  }

  /** Gives out up to `left` rows of the buffer; without rows to give, ends the message or starts a fetch. */
  function Give(c: Conn, msg: Msg, given: seq<Row>, left: nat): (r: Conn)
    requires c.mode.Idle?
    ensures r.queued == c.queued && !r.mode.Closed?
    decreases left
  {
    var p := LeftOf(c);
    if left == 0 then Summarize(c, msg, given)
    else if p.rows != [] then
      if msg.Pull? && !p.rows[0].sendable then FailRows(SkipRow(c, p), msg, given)
      else Give(GiveRow(c, msg, p), msg, given + [p.rows[0]], left - 1)
    else if p.started && p.next.None? then Summarize(c, msg, given)
    else StartFetch(c, msg, given, left, p)
  }

  // ----- messages and events

  function Handle(c: Conn, msg: Msg): (r: Conn)
    requires c.mode.Idle?
    ensures r.queued == c.queued
  {
    if GivesRows(c.state, msg) then
      match CountOf(msg)
      case Err(_) => Send(c, Failure).(state := Failed)
      case Ok(count) =>
        if !c.s.authenticated || c.s.pending.None? then Send(c, Failure).(state := Failed)
        else Give(c, msg, [], Limit(count))
    else Respond(c, msg)
  }

  /** Handles queued messages, oldest first, until one has to wait for a page or the connection closes. */
  function Drain(c: Conn): Conn
    decreases |c.queued|
  {
    if c.mode.Idle? && c.queued != [] then Drain(Handle(c.(queued := c.queued[1..]), c.queued[0])) else c
  }

  function Ignoreds(n: nat): seq<ServerMsg> { seq(n, _ => Ignored) }

  /** RESET during a fetch: IGNORED for the row message and the queue, SUCCESS for the RESET. */
  function ResetFetch(c: Conn, f: Fetch): Conn {
    var c := Log(c, f.msg, f.given, Some(Ignored));
    Clear(c.(sent := c.sent + Ignoreds(1 + |c.queued|) + [Success(None)], queued := [])).(mode := Idle, state := Ready)
  }

  /** The deadline had not passed as the fetch started. */
  function BeginFetch(c: Conn, f: Fetch): Conn { c.(mode := Fetching(f.(starting := false))) }

  /** What the end of the fetch means for its cursor. */
  function Spend(c: Conn, f: Fetch, fate: Fate): Conn { c.(trace := Note(c.trace, fate, f.cursor)) }

  /** The rows of a page with the result's columns go to the buffer. */
  function TakePage(c: Conn, rows: seq<Row>, next: Option<nat>): Conn {
    var p := LeftOf(c);
    c.(mode := Idle, s := c.s.(pending := Some(p.(rows := p.rows + rows, next := next))),
       trace := Note(c.trace, Issued, next).(pages := c.trace.pages + rows))
  }

  /** A page with other columns is turned down, and its cursor with it. */
  function RefusePage(c: Conn, next: Option<nat>): Conn {
    c.(trace := Note(Note(c.trace, Issued, next), Forgotten, next))
  }

  /** The client leaves during the fetch: nothing more is sent. */
  function Leave(c: Conn, f: Fetch, goodbye: bool): Conn {
    Log(c, f.msg, f.given, None).(mode := Closed(CutShort(f.msg, goodbye)))
  }

  function EndFetch(c: Conn, f: Fetch): Conn { FailRows(c.(mode := Idle), f.msg, f.given) }

  /** The fetch is over. */
  function OnPage(c: Conn, f: Fetch, result: FetchResult): Conn {
    var c := Spend(c, f, FetchedWith);
    match result
    case Page(rows, next, true) => Give(TakePage(c, rows, next), f.msg, f.given, f.left)
    case Page(_, next, false) => EndFetch(RefusePage(c, next), f)
    case PageError => EndFetch(c, f)
  }

  /** A message during the fetch: RESET and GOODBYE end it, others are queued while there is room. */
  function OnMessage(c: Conn, f: Fetch, msg: Msg, max: nat): Conn {
    if msg.Reset? then ResetFetch(Spend(c, f, Interrupted), f)
    else if msg.Goodbye? then Leave(Spend(c, f, Interrupted), f, true)
    else if |c.queued| >= max then EndFetch(Spend(c, f, Interrupted), f)
    else c.(queued := c.queued + [msg])
  }

  /** An event while a page is being fetched, before the queue gets its turn. */
  function DuringFetch(c: Conn, f: Fetch, e: Event, max: nat): Conn {
    match e
    case DeadlinePassed => c
    case Fetched(result) => OnPage(c, f, result)
    case Malformed => EndFetch(Spend(c, f, Interrupted), f)
    case Arrives(msg) => OnMessage(c, f, msg, max)
  }

  function OnEvent(c: Conn, e: Event, max: nat): Conn {
    match c.mode
    case Closed(_) => c
    case Idle =>
      (match e
       case Arrives(msg) => Drain(Handle(c, msg))
       case Malformed => Send(c, Failure).(state := Failed)
       case _ => c)
    case Fetching(f) =>
      if f.starting && e.DeadlinePassed? then
        Drain(EndFetch(Spend(c, f, Forgotten), f))
      else Drain(DuringFetch(BeginFetch(c, f), f.(starting := false), e, max))
  }

  /** The connection after the first `p` events. */
  function Reached(script: seq<Event>, p: nat, max: nat): Conn
    requires p <= |script|
  {
    if p == 0 then START else OnEvent(Reached(script, p - 1, max), script[p - 1], max)
  }

  /** The client closes the channel; a result still held is cleared. */
  function Finish(c: Conn): Conn {
    Clear(match c.mode
          case Idle => c.(mode := Closed(ChannelClosed))
          case Fetching(f) => Leave(Spend(c, f, Interrupted), f, false)
          case Closed(_) => c)
  }

  /** The whole connection. */
  function Whole(script: seq<Event>, max: nat): Conn {
    Finish(Reached(script, |script|, max))
  }
}
