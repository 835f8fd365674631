/**
 What holds in every run of the Bolt connection: the states it can be in, that each frame it
 does not lose is answered once and in arrival order, that the rows given out are the rows
 fetched, and what becomes of server cursors.
 */
module BoltRuns {
  import opened Base
  import opened BoltMachine

  lemma {:induction false} ClosedStays(c: Conn, e: Event, max: nat)
    requires c.mode.Closed?
    ensures OnEvent(c, e, max) == c
  {
  }

  lemma {:induction false} ClosedForGood(script: seq<Event>, p: nat, end: nat, max: nat)
    requires p <= end <= |script| && Reached(script, p, max).mode.Closed?
    ensures Reached(script, end, max) == Reached(script, p, max)
    decreases end
  {
    hide OnEvent;
    if p < end {
      ClosedForGood(script, p, end - 1, max);
      ClosedStays(Reached(script, end - 1, max), script[end - 1], max);
    }
  }

  // ----- what was sent

  predicate IsSummary(m: ServerMsg) { !m.Record? }

  function SummaryCount(sent: seq<ServerMsg>): nat {
    if sent == [] then 0
    else SummaryCount(sent[..|sent| - 1]) + (if IsSummary(sent[|sent| - 1]) then 1 else 0)
  }

  /** The rows among the messages sent, in order. */
  function RecordsOf(sent: seq<ServerMsg>): seq<Row> {
    if sent == [] then []
    else RecordsOf(sent[..|sent| - 1]) + (if IsSummary(sent[|sent| - 1]) then [] else [sent[|sent| - 1].row])
  }

  lemma {:induction false} SentOne(sent: seq<ServerMsg>, m: ServerMsg)
    ensures SummaryCount(sent + [m]) == SummaryCount(sent) + if IsSummary(m) then 1 else 0
    ensures RecordsOf(sent + [m]) == RecordsOf(sent) + if IsSummary(m) then [] else [m.row]
  {
    assert (sent + [m])[..|sent|] == sent;
  }

  lemma {:induction false} SentIgnoreds(sent: seq<ServerMsg>, n: nat)
    ensures SummaryCount(sent + Ignoreds(n)) == SummaryCount(sent) + n
    ensures RecordsOf(sent + Ignoreds(n)) == RecordsOf(sent)
  {
    if n == 0 {
      assert sent + Ignoreds(0) == sent;
    } else {
      SentIgnoreds(sent, n - 1);
      assert sent + Ignoreds(n) == sent + Ignoreds(n - 1) + [Ignored];
      SentOne(sent + Ignoreds(n - 1), Ignored);
    }
  }

  // ----- states and rows

  /** A row message is refused for naming another query, or a number of rows that is neither -1 nor positive. */
  predicate Refusable(msg: Msg)
    requires msg.Pull? || msg.Discard?
  {
    (!msg.qid.Missing? && msg.qid != Int(-1)) || (msg.n.Int? && msg.n.value != -1 && msg.n.value <= 0)
  }

  predicate IsRowMsg(msg: Msg) { (msg.Pull? || msg.Discard?) && !Refusable(msg) }

  /** How many rows a message wants: the number it names, or all, and then as many as a machine word counts. */
  function LimitOf(msg: Msg): nat
    requires IsRowMsg(msg)
  {
    if msg.n.Int? && msg.n.value > 0 then msg.n.value else U64_MAX
  }

  lemma {:induction false} CountIsAsked(msg: Msg)
    requires msg.Pull? || msg.Discard?
    ensures CountOf(msg).Err? <==> Refusable(msg)
    ensures CountOf(msg).Ok? ==> Limit(CountOf(msg).value) == LimitOf(msg)
  {
  }

  ghost predicate StateOk(state: BoltState, s: Session) {
    && (state.Ready? ==> s.authenticated && s.pending.None?)
    && (state.Streaming? ==> s.authenticated && s.pending.Some?)
    && (state.Negotiation? || state.Authentication? ==> !s.authenticated)
    && HeldOk(s)
  }

  /** Only an authenticated client has a result, and a result that was not started is empty. */
  ghost predicate HeldOk(s: Session) {
    s.pending.Some? ==>
      s.authenticated && (!s.pending.value.started ==> s.pending.value.rows == [] && s.pending.value.next.None?)
  }

  /** The last message sent is a summary and tells the client whether the connection has failed. */
  ghost predicate LastTells(state: BoltState, sent: seq<ServerMsg>) {
    if sent == [] then state.Negotiation?
    else
      var last := sent[|sent| - 1];
      IsSummary(last) && (state.Failed? <==> last.Failure? || last.Ignored?)
  }

  function End(e: Served): seq<Row> { e.before + e.given }

  /**
   What the end of a row message means. It gave out no more rows than its fields ask for, and they follow
   those given before in the pages fetched. SUCCESS says whether rows or a cursor are left, comes
   short of the number asked for only when neither is, and leaves exactly the rest of the pages.
   */
  ghost predicate ServedOk(e: Served) {
    && IsRowMsg(e.msg) && |e.given| <= LimitOf(e.msg) && End(e) <= e.pages
    && (e.reply.Some? && e.reply.value.Success? ==>
          && e.left.started && e.reply.value.hasMore == Some(e.left.rows != [] || e.left.next.Some?)
          && (|e.given| == LimitOf(e.msg) || (e.left.rows == [] && e.left.next.None?))
          && e.pages == End(e) + e.left.rows)
    && (e.reply.Some? ==> !e.reply.value.Record?)
  }

  /** Every row message goes on where it should, and the next one of statement `statement` would go on at `now`. */
  ghost predicate Chained(served: seq<Served>, statement: nat, now: seq<Row>) {
    && (forall i :: 0 <= i < |served| ==> GoesOn(served, i))
    && (served != [] ==> served[|served| - 1].statement <= statement)
    && now == if served != [] && served[|served| - 1].statement == statement then End(served[|served| - 1]) else []
  }

  /** A row message starts from nothing as the first of its statement, and else where the one before it ended. */
  ghost predicate GoesOn(served: seq<Served>, i: nat)
    requires i < |served|
  {
    if i > 0 && served[i - 1].statement == served[i].statement then served[i].before == End(served[i - 1])
    else served[i].before == [] && (i > 0 ==> served[i - 1].statement < served[i].statement)
  }

  /** The rows PULLs have given out, in order. */
  function Pulled(served: seq<Served>): seq<Row> {
    if served == [] then []
    else
      var last := served[|served| - 1];
      Pulled(served[..|served| - 1]) + (if last.msg.Pull? then last.given else [])
  }

  lemma {:induction false} PulledOne(served: seq<Served>, e: Served)
    ensures Pulled(served + [e]) == Pulled(served) + if e.msg.Pull? then e.given else []
  {
    assert (served + [e])[..|served|] == served;
  }

  /**
   The books while `msg` has given out `given`: the messages that ended, the rows fetched for the
   statement and those given out `before`, and the rows sent over the whole connection.
   */
  ghost predicate BooksOk(served: seq<Served>, statement: nat, pages: seq<Row>, before: seq<Row>, records: seq<Row>,
                          msg: Option<Msg>, given: seq<Row>) {
    && (forall i :: 0 <= i < |served| ==> ServedOk(served[i]))
    && Chained(served, statement, before) && before + given <= pages
    && records == Pulled(served) + (if msg.Some? && msg.value.Pull? then given else [])
  }

  ghost predicate TraceOk(c: Conn, msg: Option<Msg>, given: seq<Row>) {
    BooksOk(c.trace.served, c.trace.statement, c.trace.pages, c.trace.before, RecordsOf(c.sent), msg, given)
  }

  /** The rows fetched are those given out and those in the buffer. */
  ghost predicate PagesOk(c: Conn, given: seq<Row>) {
    c.s.pending.Some? ==> c.trace.pages == c.trace.before + given + c.s.pending.value.rows
  }

  /** Between two messages. */
  ghost predicate IdleOk(c: Conn) {
    c.mode.Idle? && StateOk(c.state, c.s) && LastTells(c.state, c.sent) && TraceOk(c, None, []) && PagesOk(c, [])
  }

  /** While `msg` gives out rows. */
  ghost predicate GivingOk(c: Conn, msg: Msg, given: seq<Row>, left: nat) {
    && c.state.Streaming? && StateOk(c.state, c.s) && IsRowMsg(msg) && |given| + left == LimitOf(msg)
    && (given != [] ==> LeftOf(c).started) && TraceOk(c, Some(msg), given)
  }

  ghost predicate FetchOk(c: Conn, f: Fetch) {
    && c.mode == Fetching(f) && GivingOk(c, f.msg, f.given, f.left) && PagesOk(c, f.given)
    && c.s.pending == Some(Pending(true, [], None))
  }

  /** What every event leaves. */
  ghost predicate ConnOk(c: Conn) {
    match c.mode
    case Idle => IdleOk(c)
    case Fetching(f) => FetchOk(c, f)
    case Closed(_) => HeldOk(c.s) && TraceOk(c, None, [])
  }

  lemma {:induction false} ChainedOn(served: seq<Served>, statement: nat, now: seq<Row>, e: Served)
    requires Chained(served, statement, now) && e.statement == statement && e.before == now
    ensures Chained(served + [e], statement, End(e))
  {
    var all := served + [e];
    forall i | 0 <= i < |all| ensures GoesOn(all, i) {
      if i < |served| {
        assert GoesOn(served, i);
      }
    }
  }

  lemma {:induction false} BooksEnd(served: seq<Served>, statement: nat, pages: seq<Row>, before: seq<Row>,
                                    records: seq<Row>, msg: Msg, given: seq<Row>, e: Served)
    requires BooksOk(served, statement, pages, before, records, Some(msg), given) && ServedOk(e)
    requires e.statement == statement && e.msg == msg && e.before == before && e.given == given
    ensures BooksOk(served + [e], statement, pages, before + given, records, None, [])
  {
    hide ServedOk;
    hide Chained;
    hide Pulled;
    PulledOne(served, e);
    ChainedOn(served, statement, before, e);
    assert before + given + [] == before + given;
  }

  /** Logging the end of a row message closes its account. */
  lemma {:induction false} LogEnds(c: Conn, msg: Msg, given: seq<Row>, left: nat, reply: Option<ServerMsg>)
    requires GivingOk(c, msg, given, left)
    requires reply.Some? && reply.value.Success? ==>
      && reply.value == Success(Some(HasMore(LeftOf(c)))) && LeftOf(c).started
      && (left == 0 || !HasMore(LeftOf(c))) && PagesOk(c, given)
    requires reply.Some? ==> IsSummary(reply.value)
    ensures TraceOk(Log(c, msg, given, reply), None, [])
  {
    var t := c.trace;
    var e := Served(t.statement, msg, t.before, given, LeftOf(c), reply, t.pages);
    assert ServedOk(e);
    BooksEnd(t.served, t.statement, t.pages, t.before, RecordsOf(c.sent), msg, given, e);
  }

  /** Sending a summary that tells the state leaves the connection in order between two messages. */
  lemma {:induction false} Answers(c: Conn, c': Conn, m: ServerMsg)
    requires TraceOk(c, None, []) && c'.mode.Idle? && c'.sent == c.sent + [m] && IsSummary(m)
    requires c'.trace.served == c.trace.served
    requires
      || (c'.trace.statement, c'.trace.pages, c'.trace.before) == (c.trace.statement, c.trace.pages, c.trace.before)
      || (c'.trace.statement, c'.trace.pages, c'.trace.before) == (c.trace.statement + 1, [], [])
    requires StateOk(c'.state, c'.s) && PagesOk(c', []) && (c'.state.Failed? <==> m.Failure? || m.Ignored?)
    ensures IdleOk(c')
  {
    SentOne(c.sent, m);
  }

  lemma {:induction false} SummarizeOk(c: Conn, msg: Msg, given: seq<Row>, left: nat)
    requires c.mode.Idle? && GivingOk(c, msg, given, left) && PagesOk(c, given)
    requires LeftOf(c).started && (left == 0 || !HasMore(LeftOf(c)))
    ensures IdleOk(Summarize(c, msg, given))
  {
    var reply := Success(Some(HasMore(LeftOf(c))));
    LogEnds(c, msg, given, left, Some(reply));
    var logged := Log(c, msg, given, Some(reply));
    assert PagesOk(logged, []);
    Answers(logged, Summarize(c, msg, given), reply);
  }

  lemma {:induction false} FailRowsOk(c: Conn, msg: Msg, given: seq<Row>, left: nat)
    requires c.mode.Idle? && GivingOk(c, msg, given, left)
    ensures IdleOk(FailRows(c, msg, given))
  {
    LogEnds(c, msg, given, left, Some(Failure));
    Answers(Log(c, msg, given, Some(Failure)), FailRows(c, msg, given), Failure);
  }

  lemma {:induction false} FrontMoves(before: seq<Row>, given: seq<Row>, rows: seq<Row>)
    requires rows != []
    ensures before + given + rows == before + (given + [rows[0]]) + rows[1..]
  {
  }

  lemma {:induction false} BooksGive(served: seq<Served>, statement: nat, pages: seq<Row>, before: seq<Row>,
                                     records: seq<Row>, msg: Msg, given: seq<Row>, rows: seq<Row>)
    requires BooksOk(served, statement, pages, before, records, Some(msg), given)
    requires rows != [] && pages == before + given + rows
    ensures
      BooksOk(served, statement, pages, before, if msg.Pull? then records + [rows[0]] else records, Some(msg), given + [rows[0]])
  {
    FrontMoves(before, given, rows);
  }

  lemma {:induction false} GiveRowOk(c: Conn, msg: Msg, given: seq<Row>, left: nat)
    requires c.mode.Idle? && GivingOk(c, msg, given, left) && PagesOk(c, given) && 0 < left && LeftOf(c).rows != []
    ensures
      var p := LeftOf(c);
      var c' := GiveRow(c, msg, p);
      GivingOk(c', msg, given + [p.rows[0]], left - 1) && PagesOk(c', given + [p.rows[0]])
  {
    hide BooksOk;
    hide RecordsOf;
    hide SummaryCount;
    var p := LeftOf(c);
    SentOne(c.sent, Record(p.rows[0]));
    FrontMoves(c.trace.before, given, p.rows);
    BooksGive(c.trace.served, c.trace.statement, c.trace.pages, c.trace.before, RecordsOf(c.sent), msg, given, p.rows);
  }

  lemma {:induction false} UnsendableOk(c: Conn, msg: Msg, given: seq<Row>, left: nat)
    requires c.mode.Idle? && GivingOk(c, msg, given, left) && LeftOf(c).rows != []
    ensures IdleOk(FailRows(SkipRow(c, LeftOf(c)), msg, given))
  {
    FailRowsOk(SkipRow(c, LeftOf(c)), msg, given, left);
  }

  lemma {:induction false} StartFetchOk(c: Conn, msg: Msg, given: seq<Row>, left: nat)
    requires c.mode.Idle? && GivingOk(c, msg, given, left) && PagesOk(c, given) && LeftOf(c).rows == []
    ensures ConnOk(StartFetch(c, msg, given, left, LeftOf(c)))
  {
  }

  lemma {:induction false} GiveOk(c: Conn, msg: Msg, given: seq<Row>, left: nat)
    requires c.mode.Idle? && GivingOk(c, msg, given, left) && PagesOk(c, given)
    ensures ConnOk(Give(c, msg, given, left))
    decreases left
  {
    hide BooksOk;
    var p := LeftOf(c);
    if left == 0 {
      SummarizeOk(c, msg, given, left);
    } else if p.rows != [] {
      if msg.Pull? && !p.rows[0].sendable {
        UnsendableOk(c, msg, given, left);
      } else {
        GiveRowOk(c, msg, given, left);
        GiveOk(GiveRow(c, msg, p), msg, given + [p.rows[0]], left - 1);
      }
    } else if p.started && p.next.None? {
      SummarizeOk(c, msg, given, left);
    } else {
      StartFetchOk(c, msg, given, left);
    }
  }

  lemma {:induction false} AcceptOk(c: Conn, msg: Msg)
    requires IdleOk(c) && Accepts(c.state, msg)
    ensures IdleOk(Respond(c, msg))
  {
    hide BooksOk;
    Answers(c, Respond(c, msg), Success(None));
  }

  lemma {:induction false} RespondOk(c: Conn, msg: Msg)
    requires IdleOk(c) && !GivesRows(c.state, msg)
    ensures ConnOk(Respond(c, msg))
  {
    hide BooksOk;
    if msg.Goodbye? {
    } else if Accepts(c.state, msg) {
      AcceptOk(c, msg);
    } else if c.state.Failed? {
      Answers(c, Respond(c, msg), Ignored);
    } else if Respond(c, msg).mode.Idle? {
      Answers(c, Respond(c, msg), Failure);
    } else {
      SentOne(c.sent, Failure);
      assert RecordsOf(c.sent) + [] == RecordsOf(c.sent);
    }
  }

  lemma {:induction false} HandleOk(c: Conn, msg: Msg)
    requires IdleOk(c)
    ensures ConnOk(Handle(c, msg))
  {
    if !GivesRows(c.state, msg) {
      RespondOk(c, msg);
      return;
    }
    CountIsAsked(msg);
    if IsRowMsg(msg) {
      GiveOk(c, msg, [], LimitOf(msg));
    } else {
      SentOne(c.sent, Failure);
    }
  }

  lemma {:induction false} DrainOk(c: Conn)
    requires ConnOk(c)
    ensures ConnOk(Drain(c)) && (Drain(c).mode.Idle? ==> Drain(c).queued == [])
    decreases |c.queued|
  {
    if c.mode.Idle? && c.queued != [] {
      var rest := c.(queued := c.queued[1..]);
      HandleOk(rest, c.queued[0]);
      DrainOk(Handle(rest, c.queued[0]));
    }
  }

  lemma {:induction false} ResetFetchOk(c: Conn, f: Fetch)
    requires FetchOk(c, f)
    ensures IdleOk(ResetFetch(c, f))
  {
    hide BooksOk;
    hide RecordsOf;
    hide Ignoreds;
    LogEnds(c, f.msg, f.given, f.left, Some(Ignored));
    SentIgnoreds(c.sent, 1 + |c.queued|);
    var logged := Log(c, f.msg, f.given, Some(Ignored));
    Answers(logged.(sent := c.sent + Ignoreds(1 + |c.queued|)), ResetFetch(c, f), Success(None));
  }

  lemma {:induction false} EndFetchOk(c: Conn, f: Fetch)
    requires FetchOk(c, f)
    ensures IdleOk(EndFetch(c, f))
  {
    FailRowsOk(c.(mode := Idle), f.msg, f.given, f.left);
  }

  lemma {:induction false} BooksFetch(served: seq<Served>, statement: nat, pages: seq<Row>, before: seq<Row>,
                                      records: seq<Row>, msg: Option<Msg>, given: seq<Row>, rows: seq<Row>)
    requires BooksOk(served, statement, pages, before, records, msg, given)
    ensures BooksOk(served, statement, pages + rows, before, records, msg, given)
  {
    hide ServedOk;
    hide Chained;
    hide Pulled;
  }

  lemma {:induction false} TakePageOk(c: Conn, f: Fetch, rows: seq<Row>, next: Option<nat>)
    requires FetchOk(c, f)
    ensures
      var c' := TakePage(c, rows, next);
      GivingOk(c', f.msg, f.given, f.left) && PagesOk(c', f.given)
  {
    hide BooksOk;
    hide RecordsOf;
    var t := c.trace;
    assert t.before + f.given + [] == t.before + f.given;
    assert LeftOf(c).rows + rows == rows;
    BooksFetch(t.served, t.statement, t.pages, t.before, RecordsOf(c.sent), Some(f.msg), f.given, rows);
  }

  lemma {:induction false} LeaveOk(c: Conn, f: Fetch, goodbye: bool)
    requires FetchOk(c, f)
    ensures ConnOk(Leave(c, f, goodbye))
  {
    LogEnds(c, f.msg, f.given, f.left, None);
  }

  lemma {:induction false} RefusePageOk(c: Conn, f: Fetch, next: Option<nat>)
    requires FetchOk(c, f)
    ensures IdleOk(EndFetch(RefusePage(c, next), f))
  {
    EndFetchOk(RefusePage(c, next), f);
  }

  lemma {:induction false} SpendOk(c: Conn, f: Fetch, fate: Fate)
    requires FetchOk(c, f)
    ensures FetchOk(Spend(c, f, fate), f)
  {
    hide BooksOk;
  }

  lemma {:induction false} QueueOk(c: Conn, f: Fetch, msg: Msg)
    requires FetchOk(c, f)
    ensures FetchOk(c.(queued := c.queued + [msg]), f)
  {
  }

  lemma {:induction false} OnPageOk(c: Conn, f: Fetch, result: FetchResult)
    requires FetchOk(c, f)
    ensures ConnOk(OnPage(c, f, result))
  {
    SpendOk(c, f, FetchedWith);
    var c := Spend(c, f, FetchedWith);
    match result
    case Page(rows, next, true) =>
      TakePageOk(c, f, rows, next);
      GiveOk(TakePage(c, rows, next), f.msg, f.given, f.left);
    case Page(_, next, false) => RefusePageOk(c, f, next);
    case PageError => EndFetchOk(c, f);
  }

  lemma {:induction false} OnMessageOk(c: Conn, f: Fetch, msg: Msg, max: nat)
    requires FetchOk(c, f)
    ensures ConnOk(OnMessage(c, f, msg, max))
  {
    SpendOk(c, f, Interrupted);
    if msg.Reset? {
      ResetFetchOk(Spend(c, f, Interrupted), f);
    } else if msg.Goodbye? {
      LeaveOk(Spend(c, f, Interrupted), f, true);
    } else if |c.queued| >= max {
      EndFetchOk(Spend(c, f, Interrupted), f);
    } else {
      QueueOk(c, f, msg);
    }
  }

  lemma {:induction false} DuringFetchOk(c: Conn, f: Fetch, e: Event, max: nat)
    requires FetchOk(c, f)
    ensures ConnOk(DuringFetch(c, f, e, max))
  {
    match e
    case DeadlinePassed =>
    case Fetched(result) => OnPageOk(c, f, result);
    case Malformed =>
      SpendOk(c, f, Interrupted);
      EndFetchOk(Spend(c, f, Interrupted), f);
    case Arrives(msg) => OnMessageOk(c, f, msg, max);
  }

  lemma {:induction false} OnEventOk(c: Conn, e: Event, max: nat)
    requires ConnOk(c) && (c.mode.Idle? ==> c.queued == [])
    ensures
      var c' := OnEvent(c, e, max);
      ConnOk(c') && (c'.mode.Idle? ==> c'.queued == [])
  {
    hide BooksOk;
    hide DuringFetch;
    match c.mode
    case Closed(_) =>
    case Idle =>
      if e.Arrives? {
        HandleOk(c, e.msg);
        DrainOk(Handle(c, e.msg));
      } else if e.Malformed? {
        Answers(c, OnEvent(c, e, max), Failure);
      }
    case Fetching(f) =>
      if f.starting && e.DeadlinePassed? {
        SpendOk(c, f, Forgotten);
        var late := Spend(c, f, Forgotten);
        EndFetchOk(late, f);
        DrainOk(EndFetch(late, f));
      } else {
        var c1, f1 := BeginFetch(c, f), f.(starting := false);
        DuringFetchOk(c1, f1, e, max);
        DrainOk(DuringFetch(c1, f1, e, max));
      }
  }

  /**
   At every point of every run: ready means authenticated with no result, streaming means
   authenticated with one, an idle connection has worked its queue off and its last word tells
   whether it has failed, and the rows sent and discarded are, in order, the rows fetched.
   */
  lemma {:induction false} EveryRunOk(script: seq<Event>, p: nat, max: nat)
    requires p <= |script|
    ensures
      var c := Reached(script, p, max);
      ConnOk(c) && (c.mode.Idle? ==> c.queued == [])
  {
    hide OnEvent;
    if p == 0 {
      assert IdleOk(START);
    } else {
      EveryRunOk(script, p - 1, max);
      OnEventOk(Reached(script, p - 1, max), script[p - 1], max);
    }
  }

  // ----- what summaries say about the rest of a result

  predicate TellsMore(m: Option<ServerMsg>) { m.Some? && m.value.Success? && m.value.hasMore.Some? }

  /** What the summaries sent say about more rows, in order. */
  function SaidMore(sent: seq<ServerMsg>): seq<bool> {
    if sent == [] then []
    else
      var (rest, last) := (SaidMore(sent[..|sent| - 1]), sent[|sent| - 1]);
      if TellsMore(Some(last)) then rest + [last.hasMore.value] else rest
  }

  /** What the row messages that ended were answered about more rows, in order. */
  function LoggedMore(served: seq<Served>): seq<bool> {
    if served == [] then []
    else
      var (rest, last) := (LoggedMore(served[..|served| - 1]), served[|served| - 1]);
      if TellsMore(last.reply) then rest + [last.reply.value.hasMore.value] else rest
  }

  /** Every `has_more` the client was told belongs to a row message that ended, and the other way round. */
  ghost predicate Honest(c: Conn) { SaidMore(c.sent) == LoggedMore(c.trace.served) }

  lemma {:induction false} SaidOne(sent: seq<ServerMsg>, m: ServerMsg)
    ensures SaidMore(sent + [m]) == if TellsMore(Some(m)) then SaidMore(sent) + [m.hasMore.value] else SaidMore(sent)
  {
    assert (sent + [m])[..|sent|] == sent;
  }

  lemma {:induction false} LoggedOne(served: seq<Served>, e: Served)
    ensures LoggedMore(served + [e]) ==
            if TellsMore(e.reply) then LoggedMore(served) + [e.reply.value.hasMore.value] else LoggedMore(served)
  {
    assert (served + [e])[..|served|] == served;
  }

  lemma {:induction false} SaidIgnoreds(sent: seq<ServerMsg>, n: nat)
    ensures SaidMore(sent + Ignoreds(n)) == SaidMore(sent)
  {
    if n == 0 {
      assert sent + Ignoreds(0) == sent;
    } else {
      SaidIgnoreds(sent, n - 1);
      assert sent + Ignoreds(n) == sent + Ignoreds(n - 1) + [Ignored];
      SaidOne(sent + Ignoreds(n - 1), Ignored);
    }
  }

  lemma {:induction false} LogHonest(c: Conn, msg: Msg, given: seq<Row>, reply: ServerMsg)
    requires Honest(c)
    ensures Honest(Send(Log(c, msg, given, Some(reply)), reply))
  {
    hide SaidMore;
    hide LoggedMore;
    SaidOne(c.sent, reply);
    LoggedOne(c.trace.served, Served(c.trace.statement, msg, c.trace.before, given, LeftOf(c), Some(reply), c.trace.pages));
  }

  lemma {:induction false} GiveHonest(c: Conn, msg: Msg, given: seq<Row>, left: nat)
    requires c.mode.Idle? && Honest(c)
    ensures Honest(Give(c, msg, given, left))
    decreases left
  {
    hide SaidMore;
    hide LoggedMore;
    var p := LeftOf(c);
    LogHonest(c, msg, given, Success(Some(HasMore(p))));
    if left != 0 && p.rows != [] {
      if msg.Pull? && !p.rows[0].sendable {
        LogHonest(SkipRow(c, p), msg, given, Failure);
      } else {
        SaidOne(c.sent, Record(p.rows[0]));
        GiveHonest(GiveRow(c, msg, p), msg, given + [p.rows[0]], left - 1);
      }
    }
  }

  lemma {:induction false} HandleHonest(c: Conn, msg: Msg)
    requires c.mode.Idle? && Honest(c)
    ensures Honest(Handle(c, msg))
  {
    hide SaidMore;
    hide LoggedMore;
    hide Give;
    SaidOne(c.sent, Success(None));
    SaidOne(c.sent, Failure);
    SaidOne(c.sent, Ignored);
    if GivesRows(c.state, msg) && CountOf(msg).Ok? {
      GiveHonest(c, msg, [], Limit(CountOf(msg).value));
    }
  }

  lemma {:induction false} DrainHonest(c: Conn)
    requires Honest(c)
    ensures Honest(Drain(c))
    decreases |c.queued|
  {
    if c.mode.Idle? && c.queued != [] {
      var rest := c.(queued := c.queued[1..]);
      HandleHonest(rest, c.queued[0]);
      DrainHonest(Handle(rest, c.queued[0]));
    }
  }

  lemma {:induction false} ResetHonest(c: Conn, f: Fetch)
    requires Honest(c)
    ensures Honest(ResetFetch(c, f))
  {
    hide SaidMore;
    hide LoggedMore;
    LoggedOne(c.trace.served, Served(c.trace.statement, f.msg, c.trace.before, f.given, LeftOf(c), Some(Ignored), c.trace.pages));
    SaidIgnoreds(c.sent, 1 + |c.queued|);
    SaidOne(c.sent + Ignoreds(1 + |c.queued|), Success(None));
  }

  lemma {:induction false} LeaveHonest(c: Conn, f: Fetch, goodbye: bool)
    requires Honest(c)
    ensures Honest(Leave(c, f, goodbye))
  {
    hide SaidMore;
    hide LoggedMore;
    LoggedOne(c.trace.served, Served(c.trace.statement, f.msg, c.trace.before, f.given, LeftOf(c), None, c.trace.pages));
  }

  lemma {:induction false} EndFetchHonest(c: Conn, f: Fetch)
    requires Honest(c)
    ensures Honest(EndFetch(c, f))
  {
    LogHonest(c.(mode := Idle), f.msg, f.given, Failure);
  }

  lemma {:induction false} DuringFetchHonest(c: Conn, f: Fetch, e: Event, max: nat)
    requires Honest(c)
    ensures Honest(DuringFetch(c, f, e, max))
  {
    hide Give;
    hide EndFetch;
    hide ResetFetch;
    hide Leave;
    var cut, done := Spend(c, f, Interrupted), Spend(c, f, FetchedWith);
    EndFetchHonest(cut, f);
    EndFetchHonest(done, f);
    ResetHonest(cut, f);
    LeaveHonest(cut, f, true);
    if e.Fetched? && e.result.Page? {
      GiveHonest(TakePage(done, e.result.rows, e.result.next), f.msg, f.given, f.left);
      EndFetchHonest(RefusePage(done, e.result.next), f);
    }
  }

  lemma {:induction false} OnEventHonest(c: Conn, e: Event, max: nat)
    requires Honest(c)
    ensures Honest(OnEvent(c, e, max))
  {
    hide EndFetch;
    hide DuringFetch;
    hide Handle;
    match c.mode
    case Closed(_) =>
    case Idle =>
      SaidOne(c.sent, Failure);
      if e.Arrives? {
        HandleHonest(c, e.msg);
        DrainHonest(Handle(c, e.msg));
      }
    case Fetching(f) =>
      var late := Spend(c, f, Forgotten);
      EndFetchHonest(late, f);
      DrainHonest(EndFetch(late, f));
      DuringFetchHonest(BeginFetch(c, f), f.(starting := false), e, max);
      DrainHonest(DuringFetch(BeginFetch(c, f), f.(starting := false), e, max));
  }

  lemma {:induction false} EveryRunHonest(script: seq<Event>, p: nat, max: nat)
    requires p <= |script|
    ensures Honest(Reached(script, p, max))
  {
    hide OnEvent;
    if p > 0 {
      EveryRunHonest(script, p - 1, max);
      OnEventHonest(Reached(script, p - 1, max), script[p - 1], max);
    }
  }

  // ----- which row messages are refused

  /**
   A streaming connection refuses a row message exactly when it names another query or a number of rows that is
   neither -1 nor positive: it sends FAILURE, gives out nothing and has failed.
   */
  lemma {:induction false} RefusesExactly(c: Conn, msg: Msg)
    requires IdleOk(c) && c.state.Streaming? && (msg.Pull? || msg.Discard?)
    ensures
      var refused := Send(c, Failure).(state := Failed);
      Refusable(msg) <==> Handle(c, msg) == refused
  {
    hide BooksOk;
    hide RecordsOf;
    CountIsAsked(msg);
    if !Refusable(msg) {
      GiveLogs(c, msg, [], Limit(CountOf(msg).value));
    }
  }

  /** Giving out rows ends with a record of it, or waits for a page. */
  lemma {:induction false} GiveLogs(c: Conn, msg: Msg, given: seq<Row>, left: nat)
    requires c.mode.Idle?
    ensures
      var c' := Give(c, msg, given, left);
      if c'.mode.Idle? then |c'.trace.served| == |c.trace.served| + 1 else c'.trace.served == c.trace.served
    decreases left
  {
    var p := LeftOf(c);
    if left != 0 && p.rows != [] && !(msg.Pull? && !p.rows[0].sendable) {
      GiveLogs(GiveRow(c, msg, p), msg, given + [p.rows[0]], left - 1);
    }
  }

  // ----- whole connections

  /**
   The rows over a whole connection: every row message that ended did what its own fields ask for, PULLs sent exactly
   what they gave out, and the client was told of more rows by those messages and no others.
   */
  lemma {:induction false} RowsAccountedFor(script: seq<Event>, max: nat)
    ensures
      var c := Whole(script, max);
      && (forall i :: 0 <= i < |c.trace.served| ==> ServedOk(c.trace.served[i]))
      && Chained(c.trace.served, c.trace.statement, c.trace.before)
      && RecordsOf(c.sent) == Pulled(c.trace.served) && SaidMore(c.sent) == LoggedMore(c.trace.served)
  {
    hide BooksOk;
    hide ServedOk;
    hide Chained;
    hide SaidMore;
    hide LoggedMore;
    hide OnEvent;
    var c := Reached(script, |script|, max);
    EveryRunOk(script, |script|, max);
    EveryRunHonest(script, |script|, max);
    FinishOk(c);
    FinishHonest(c);
    WholeBooks(Finish(c));
  }

  lemma {:induction false} FinishOk(c: Conn)
    requires ConnOk(c)
    ensures TraceOk(Finish(c), None, [])
  {
    hide BooksOk;
    if c.mode.Fetching? {
      SpendOk(c, c.mode.fetch, Interrupted);
      LeaveOk(Spend(c, c.mode.fetch, Interrupted), c.mode.fetch, false);
    }
  }

  lemma {:induction false} FinishHonest(c: Conn)
    requires Honest(c)
    ensures Honest(Finish(c))
  {
    hide SaidMore;
    hide LoggedMore;
    if c.mode.Fetching? {
      LeaveHonest(Spend(c, c.mode.fetch, Interrupted), c.mode.fetch, false);
    }
  }

  lemma {:induction false} WholeBooks(c: Conn)
    requires TraceOk(c, None, [])
    ensures (forall i :: 0 <= i < |c.trace.served| ==> ServedOk(c.trace.served[i]))
    ensures Chained(c.trace.served, c.trace.statement, c.trace.before) && RecordsOf(c.sent) == Pulled(c.trace.served)
  {
    assert Pulled(c.trace.served) + [] == Pulled(c.trace.served);
  }

  /**
   Which message leads an idle connection to authentication: HELLO in negotiation, LOGOFF when ready, and
   RESET after a failure before any logon, which skips HELLO.
   */
  lemma {:induction false} LeadsToAuthentication(c: Conn, msg: Msg)
    requires IdleOk(c) && !c.state.Authentication?
    ensures Handle(c, msg).state.Authentication? <==>
      || (c.state.Negotiation? && msg.Hello?)
      || (c.state.Ready? && msg.Logoff?)
      || (c.state.Failed? && !c.s.authenticated && msg.Reset?)
  {
    hide BooksOk;
    if GivesRows(c.state, msg) && IsRowMsg(msg) {
      GiveStays(c, msg, [], LimitOf(msg));
    }
  }

  lemma {:induction false} GiveStays(c: Conn, msg: Msg, given: seq<Row>, left: nat)
    requires c.mode.Idle? && c.state.Streaming?
    ensures !Give(c, msg, given, left).state.Authentication?
    decreases left
  {
    var p := LeftOf(c);
    if left != 0 && p.rows != [] && !(msg.Pull? && !p.rows[0].sendable) {
      GiveStays(GiveRow(c, msg, p), msg, given + [p.rows[0]], left - 1);
    }
  }

  /** A client that fails before its HELLO and resets is let into authentication. */
  lemma {:induction false} ResetSkipsHello(max: nat)
    ensures
      var c := Reached([Arrives(Telemetry), Arrives(Reset)], 2, max);
      c.state.Authentication? && c.sent == [Failure, Success(None)]
  {
    var script := [Arrives(Telemetry), Arrives(Reset)];
    var c := START.(state := Failed, sent := [Failure]);
    assert OnEvent(START, script[0], max) == c;
    assert Reached(script, 1, max) == c;
  }

  const PULL_ALL := Pull(Missing, Missing)

  /** A client that logs on, runs a statement and pulls its rows. */
  const PULLING := [Arrives(Hello), Arrives(Logon(true)), Arrives(Run(true)), Arrives(PULL_ALL)]

  /** The connection while it fetches the first page for that client. */
  const FETCHING := Conn(Streaming, Session(true, Some(Pending(true, [], None))),
                         Fetching(Fetch(PULL_ALL, [], U64_MAX, None, true)), [],
                         [Success(None), Success(None), Success(None)], Trace(multiset{}, [], 1, [], []))

  const GREETED := START.(state := Authentication, sent := [Success(None)])
  const LOGGED_ON := GREETED.(state := Ready, s := Session(true, None), sent := [Success(None), Success(None)])
  const RUNNING := LOGGED_ON.(state := Streaming, s := Session(true, Some(Pending(false, [], None))),
                              sent := [Success(None), Success(None), Success(None)], trace := NewStatement(LOGGED_ON.trace))

  lemma {:induction false} LogsOn(max: nat)
    ensures OnEvent(START, PULLING[0], max) == GREETED && OnEvent(GREETED, PULLING[1], max) == LOGGED_ON
  {
  }

  lemma {:induction false} RunsStatement(max: nat)
    ensures OnEvent(LOGGED_ON, PULLING[2], max) == RUNNING
  {
  }

  lemma {:induction false} PullsFirst(max: nat)
    ensures OnEvent(RUNNING, PULLING[3], max) == FETCHING
  {
  }

  lemma {:induction false} PullingFetches(script: seq<Event>, max: nat)
    requires 4 <= |script| && script[..4] == PULLING
    ensures Reached(script, 4, max) == FETCHING
  {
    hide OnEvent;
    assert script[0] == PULLING[0] && script[1] == PULLING[1] && script[2] == PULLING[2] && script[3] == PULLING[3];
    LogsOn(max);
    RunsStatement(max);
    PullsFirst(max);
    assert Reached(script, 1, max) == GREETED;
    assert Reached(script, 2, max) == LOGGED_ON;
    assert Reached(script, 3, max) == RUNNING;
  }
}
