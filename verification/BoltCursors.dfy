/** What becomes of the server cursors a Bolt connection is handed. */
module BoltCursors {
  import opened Base
  import opened BoltMachine
  import opened BoltRuns

  function Times(cursor: Option<nat>, x: nat): nat { if cursor == Some(x) then 1 else 0 }

  /** How often the connection holds cursor `x`: in its pending result, or for the fetch in hand. */
  function Holds(c: Conn, x: nat): nat {
    Times(Held(c.s), x) + (if c.mode.Fetching? then Times(c.mode.fetch.cursor, x) else 0)
  }

  ghost function Count(c: Conn, fate: Fate, x: nat): nat { c.trace.deeds[Deed(fate, x)] }

  /** How often `x` was handed out and is not accounted for. */
  ghost function Excess(c: Conn, x: nat): int {
    Count(c, Issued, x) - Count(c, FetchedWith, x) - Count(c, Released, x) - Count(c, Forgotten, x)
    - Count(c, Interrupted, x) - Holds(c, x)
  }

  /** Nothing is unaccounted for that was not before; `forgotten` and `interrupted` more were dropped. */
  ghost predicate Drops(c: Conn, c': Conn, x: nat, forgotten: nat, interrupted: nat) {
    && Excess(c', x) == Excess(c, x)
    && Count(c', Forgotten, x) == Count(c, Forgotten, x) + forgotten
    && Count(c', Interrupted, x) == Count(c, Interrupted, x) + interrupted
  }

  /** No cursor went missing in between, and none was dropped. */
  ghost predicate Careful(c: Conn, c': Conn, x: nat) { Drops(c, c', x, 0, 0) }

  lemma {:induction false} ClearCareful(c: Conn, x: nat)
    requires c.s.pending.Some? ==> c.s.authenticated
    ensures Careful(c, Clear(c), x)
  {
  }

  lemma {:induction false} EndCareful(c: Conn, msg: Msg, given: seq<Row>, x: nat)
    requires c.mode.Idle? && c.s.authenticated && c.s.pending.Some?
    ensures Careful(c, Summarize(c, msg, given), x) && Careful(c, FailRows(c, msg, given), x)
  {
    hide Clear;
    var reply := Success(Some(HasMore(LeftOf(c))));
    ClearCareful(Send(Log(c, msg, given, Some(reply)), reply), x);
    ClearCareful(Send(Log(c, msg, given, Some(Failure)), Failure), x);
  }

  lemma {:induction false} StartFetchCareful(c: Conn, msg: Msg, given: seq<Row>, left: nat, x: nat)
    requires c.mode.Idle? && c.s.pending.Some?
    ensures Careful(c, StartFetch(c, msg, given, left, LeftOf(c)), x)
  {
  }

  lemma {:induction false} SkipRowCareful(c: Conn, msg: Msg, x: nat)
    requires c.mode.Idle? && c.s.pending.Some? && LeftOf(c).rows != []
    ensures Careful(c, SkipRow(c, LeftOf(c)), x) && Careful(c, GiveRow(c, msg, LeftOf(c)), x)
  {
  }

  lemma {:induction false} GiveCareful(c: Conn, msg: Msg, given: seq<Row>, left: nat, x: nat)
    requires c.mode.Idle? && c.s.authenticated && c.s.pending.Some?
    ensures Careful(c, Give(c, msg, given, left), x)
    decreases left
  {
    hide Summarize;
    hide FailRows;
    hide Excess;
    hide Count;
    hide StartFetch;
    var p := LeftOf(c);
    EndCareful(c, msg, given, x);
    StartFetchCareful(c, msg, given, left, x);
    if left != 0 && p.rows != [] {
      SkipRowCareful(c, msg, x);
      EndCareful(SkipRow(c, p), msg, given, x);
      if !(msg.Pull? && !p.rows[0].sendable) {
        GiveCareful(GiveRow(c, msg, p), msg, given + [p.rows[0]], left - 1, x);
      }
    }
  }

  lemma {:induction false} RespondCareful(c: Conn, msg: Msg, x: nat)
    requires c.mode.Idle? && StateOk(c.state, c.s) && !GivesRows(c.state, msg)
    ensures Careful(c, Respond(c, msg), x)
  {
    hide Clear;
    ClearCareful(c, x);
    ClearShape(c);
  }

  lemma {:induction false} ClearShape(c: Conn)
    ensures Clear(c) == c.(s := c.s.(pending := None), trace := Clear(c).trace)
  {
  }

  lemma {:induction false} HandleCareful(c: Conn, msg: Msg, x: nat)
    requires IdleOk(c)
    ensures Careful(c, Handle(c, msg), x)
  {
    hide BooksOk;
    hide Give;
    if GivesRows(c.state, msg) && CountOf(msg).Ok? {
      GiveCareful(c, msg, [], Limit(CountOf(msg).value), x);
    } else if !GivesRows(c.state, msg) {
      RespondCareful(c, msg, x);
    }
  }

  lemma {:induction false} DrainCareful(c: Conn, x: nat)
    requires ConnOk(c)
    ensures Careful(c, Drain(c), x)
    decreases |c.queued|
  {
    if c.mode.Idle? && c.queued != [] {
      var rest := c.(queued := c.queued[1..]);
      HandleOk(rest, c.queued[0]);
      HandleCareful(rest, c.queued[0], x);
      DrainCareful(Handle(rest, c.queued[0]), x);
    }
  }

  /** Event `e` makes the connection forget `x`: the deadline has passed as a fetch with it starts, or a page with
      other columns hands it out. */
  predicate Forgets(c: Conn, e: Event, x: nat) {
    && c.mode.Fetching?
    && match e
       case DeadlinePassed => c.mode.fetch.starting && c.mode.fetch.cursor == Some(x)
       case Fetched(Page(_, next, false)) => next == Some(x)
       case _ => false
  }

  /** Frames that stop a fetch: malformed ones, RESET, GOODBYE, and messages that find the queue full. */
  predicate Stops(c: Conn, e: Event, max: nat) {
    e.Malformed? || (e.Arrives? && (e.msg.Reset? || e.msg.Goodbye? || max <= |c.queued|))
  }

  /** Event `e` stops a fetch with `x`. */
  predicate Interrupts(c: Conn, e: Event, max: nat, x: nat) {
    c.mode.Fetching? && c.mode.fetch.cursor == Some(x) && Stops(c, e, max)
  }

  /** No cursor went missing at event `e`, and `x` was dropped exactly if the event makes it so. */
  ghost predicate CarefulAt(c: Conn, e: Event, max: nat, c': Conn, x: nat) {
    Drops(c, c', x, if Forgets(c, e, x) then 1 else 0, if Interrupts(c, e, max, x) then 1 else 0)
  }

  /** An authenticated client has the result, and while a page is fetched the result holds no cursor. */
  ghost predicate InOrder(c: Conn) {
    && (c.s.pending.Some? ==> c.s.authenticated)
    && (c.mode.Fetching? ==> c.s.pending == Some(Pending(true, [], None)))
  }

  lemma {:induction false} OkIsInOrder(c: Conn)
    requires ConnOk(c)
    ensures InOrder(c)
  {
  }

  /** The fetch is over and its cursor accounted for. */
  lemma {:induction false} SpendCareful(c: Conn, f: Fetch, fate: Fate, mode: Mode, x: nat)
    requires c.mode == Fetching(f) && !mode.Fetching? && !fate.Issued?
    ensures Drops(c, Spend(c, f, fate).(mode := mode), x,
                  if fate.Forgotten? then Times(f.cursor, x) else 0, if fate.Interrupted? then Times(f.cursor, x) else 0)
  {
  }

  lemma {:induction false} TakePageCareful(c: Conn, rows: seq<Row>, next: Option<nat>, x: nat)
    requires c.s.pending == Some(Pending(true, [], None))
    ensures Careful(c.(mode := Idle), TakePage(c, rows, next), x)
  {
  }

  lemma {:induction false} RefusePageCareful(c: Conn, next: Option<nat>, x: nat)
    ensures Drops(c.(mode := Idle), RefusePage(c, next).(mode := Idle), x, Times(next, x), 0)
  {
  }

  lemma {:induction false} OnPageCareful(c: Conn, f: Fetch, result: FetchResult, max: nat, x: nat)
    requires InOrder(c) && c.mode == Fetching(f)
    ensures CarefulAt(c, Fetched(result), max, OnPage(c, f, result), x)
  {
    hide FailRows;
    hide Give;
    hide Excess;
    hide Count;
    SpendCareful(c, f, FetchedWith, Idle, x);
    var c1 := Spend(c, f, FetchedWith);
    match result
    case Page(rows, next, true) =>
      TakePageCareful(c1, rows, next, x);
      GiveCareful(TakePage(c1, rows, next), f.msg, f.given, f.left, x);
    case Page(_, next, false) =>
      RefusePageCareful(c1, next, x);
      EndCareful(RefusePage(c1, next).(mode := Idle), f.msg, f.given, x);
    case PageError =>
      EndCareful(c1.(mode := Idle), f.msg, f.given, x);
  }

  /** A fetch that ends without its page fails its message. */
  lemma {:induction false} EndFetchCareful(c: Conn, f: Fetch, fate: Fate, x: nat)
    requires InOrder(c) && c.mode == Fetching(f) && !fate.Issued?
    ensures Drops(c, EndFetch(Spend(c, f, fate), f), x,
                  if fate.Forgotten? then Times(f.cursor, x) else 0, if fate.Interrupted? then Times(f.cursor, x) else 0)
  {
    hide FailRows;
    hide Excess;
    hide Count;
    SpendCareful(c, f, fate, Idle, x);
    EndCareful(Spend(c, f, fate).(mode := Idle), f.msg, f.given, x);
  }

  lemma {:induction false} LeaveCareful(c: Conn, f: Fetch, goodbye: bool, x: nat)
    requires c.mode == Fetching(f)
    ensures Drops(c, Leave(Spend(c, f, Interrupted), f, goodbye), x, 0, Times(f.cursor, x))
  {
    SpendCareful(c, f, Interrupted, Closed(CutShort(f.msg, goodbye)), x);
  }

  lemma {:induction false} ResetCareful(c: Conn, f: Fetch, x: nat)
    requires InOrder(c) && c.mode == Fetching(f)
    ensures Drops(c, ResetFetch(Spend(c, f, Interrupted), f), x, 0, Times(f.cursor, x))
  {
    SpendCareful(c, f, Interrupted, Idle, x);
  }

  lemma {:induction false} DuringFetchCareful(c: Conn, f: Fetch, e: Event, max: nat, x: nat)
    requires InOrder(c) && c.mode == Fetching(f) && !(f.starting && e.DeadlinePassed?)
    ensures CarefulAt(c, e, max, DuringFetch(c, f, e, max), x)
  {
    hide OnPage;
    hide EndFetch;
    hide ResetFetch;
    hide Leave;
    match e
    case DeadlinePassed =>
    case Fetched(result) => OnPageCareful(c, f, result, max, x);
    case Malformed => EndFetchCareful(c, f, Interrupted, x);
    case Arrives(msg) =>
      if msg.Reset? {
        ResetCareful(c, f, x);
      } else if msg.Goodbye? {
        LeaveCareful(c, f, true, x);
      } else if max <= |c.queued| {
        EndFetchCareful(c, f, Interrupted, x);
      }
  }

  lemma {:induction false} BeginCareful(c: Conn, f: Fetch, e: Event, max: nat, x: nat)
    requires InOrder(c) && c.mode == Fetching(f) && !(f.starting && e.DeadlinePassed?)
    ensures
      var c1 := BeginFetch(c, f);
      && InOrder(c1) && c1.mode == Fetching(f.(starting := false)) && Careful(c, c1, x)
      && (Forgets(c1, e, x) <==> Forgets(c, e, x)) && (Interrupts(c1, e, max, x) <==> Interrupts(c, e, max, x))
  {
  }

  lemma {:induction false} FetchingDrains(c: Conn, f: Fetch, e: Event, max: nat, x: nat)
    requires FetchOk(c, f)
    ensures
      var c1 := if f.starting && e.DeadlinePassed? then EndFetch(Spend(c, f, Forgotten), f)
                else DuringFetch(BeginFetch(c, f), f.(starting := false), e, max);
      Careful(c1, Drain(c1), x)
  {
    hide DuringFetch;
    hide EndFetch;
    if f.starting && e.DeadlinePassed? {
      SpendOk(c, f, Forgotten);
      EndFetchOk(Spend(c, f, Forgotten), f);
      DrainCareful(EndFetch(Spend(c, f, Forgotten), f), x);
    } else {
      DuringFetchOk(BeginFetch(c, f), f.(starting := false), e, max);
      DrainCareful(DuringFetch(BeginFetch(c, f), f.(starting := false), e, max), x);
    }
  }

  lemma {:induction false} IdleCareful(c: Conn, e: Event, max: nat, x: nat)
    requires IdleOk(c)
    ensures CarefulAt(c, e, max, OnEvent(c, e, max), x)
  {
    if e.Arrives? {
      HandleOk(c, e.msg);
      HandleCareful(c, e.msg, x);
      DrainCareful(Handle(c, e.msg), x);
    }
  }

  /** One event of a run. */
  lemma {:induction false} EventCareful(script: seq<Event>, p: nat, max: nat, x: nat)
    requires p < |script|
    ensures CarefulAt(Reached(script, p, max), script[p], max, Reached(script, p + 1, max), x)
  {
    var c, e := Reached(script, p, max), script[p];
    EveryRunOk(script, p, max);
    OkIsInOrder(c);
    match c.mode
    case Closed(_) =>
    case Idle => IdleCareful(c, e, max, x);
    case Fetching(f) =>
      FetchingDrains(c, f, e, max, x);
      if f.starting && e.DeadlinePassed? {
        EndFetchCareful(c, f, Forgotten, x);
      } else {
        BeginCareful(c, f, e, max, x);
        DuringFetchCareful(BeginFetch(c, f), f.(starting := false), e, max, x);
      }
  }

  ghost predicate ForgetsAt(script: seq<Event>, p: nat, max: nat, x: nat)
    requires p < |script|
  {
    Forgets(Reached(script, p, max), script[p], x)
  }

  ghost predicate InterruptsAt(script: seq<Event>, p: nat, max: nat, x: nat)
    requires p < |script|
  {
    Interrupts(Reached(script, p, max), script[p], max, x)
  }

  /**
   At every point of every run a cursor handed out was fetched with, released, forgotten or interrupted
   once for each time, or is held. It was dropped exactly if some event made the connection do so.
   */
  lemma {:induction false} CursorsAccountedFor(script: seq<Event>, p: nat, max: nat, x: nat)
    requires p <= |script|
    ensures
      var c := Reached(script, p, max);
      && Excess(c, x) == 0
      && (0 < Count(c, Forgotten, x) <==> exists q :: 0 <= q < p && ForgetsAt(script, q, max, x))
      && (0 < Count(c, Interrupted, x) <==> exists q :: 0 <= q < p && InterruptsAt(script, q, max, x))
  {
    hide OnEvent;
    if p > 0 {
      CursorsAccountedFor(script, p - 1, max, x);
      EventCareful(script, p - 1, max, x);
      assert ForgetsAt(script, p - 1, max, x) <==> Forgets(Reached(script, p - 1, max), script[p - 1], x);
      assert InterruptsAt(script, p - 1, max, x) <==> Interrupts(Reached(script, p - 1, max), script[p - 1], max, x);
    }
  }

  /** The channel ends during a fetch with `x`. */
  predicate EndsWith(c: Conn, x: nat) { c.mode.Fetching? && c.mode.fetch.cursor == Some(x) }

  lemma {:induction false} FinishCareful(c: Conn, x: nat)
    requires InOrder(c)
    ensures Drops(c, Finish(c), x, 0, if EndsWith(c, x) then 1 else 0) && Holds(Finish(c), x) == 0
  {
    hide Clear;
    hide Excess;
    hide Count;
    match c.mode
    case Idle =>
      CloseCareful(c, ChannelClosed, x);
      FinishClears(c.(mode := Closed(ChannelClosed)), x);
    case Fetching(f) =>
      LeaveCareful(c, f, false, x);
      FinishClears(Leave(Spend(c, f, Interrupted), f, false), x);
    case Closed(_) => FinishClears(c, x);
  }

  lemma {:induction false} CloseCareful(c: Conn, closing: Closing, x: nat)
    requires c.mode.Idle?
    ensures Careful(c, c.(mode := Closed(closing)), x)
  {
  }

  lemma {:induction false} FinishClears(c: Conn, x: nat)
    requires c.mode.Closed? && (c.s.pending.Some? ==> c.s.authenticated)
    ensures Careful(c, Clear(c), x) && Holds(Clear(c), x) == 0
  {
    ClearCareful(c, x);
  }

  /**
   A closed connection keeps no cursor: each was fetched with, released, forgotten or interrupted. It was
   forgotten exactly if an event made the connection forget it, and interrupted exactly if an event or the
   end of the channel stopped a fetch with it.
   */
  lemma {:induction false} NoCursorStays(script: seq<Event>, max: nat, x: nat)
    ensures
      var c := Whole(script, max);
      && Count(c, Issued, x) ==
         Count(c, FetchedWith, x) + Count(c, Released, x) + Count(c, Forgotten, x) + Count(c, Interrupted, x)
      && (0 < Count(c, Forgotten, x) <==> exists q :: 0 <= q < |script| && ForgetsAt(script, q, max, x))
      && (0 < Count(c, Interrupted, x) <==>
            EndsWith(Reached(script, |script|, max), x) || exists q :: 0 <= q < |script| && InterruptsAt(script, q, max, x))
  {
    hide OnEvent;
    CursorsAccountedFor(script, |script|, max, x);
    var c := Reached(script, |script|, max);
    assert InOrder(c) by {
      EveryRunOk(script, |script|, max);
      OkIsInOrder(c);
    }
    FinishCareful(c, x);
  }

  /** A cursor is forgotten when a page with other columns hands it out. */
  lemma {:induction false} OtherColumnsForget(max: nat, x: nat)
    ensures
      var script := PULLING + [Fetched(Page([], Some(x), false))];
      ForgetsAt(script, 4, max, x) && 0 < Count(Whole(script, max), Forgotten, x)
  {
    var script := PULLING + [Fetched(Page([], Some(x), false))];
    PullingFetches(script, max);
    assert ForgetsAt(script, 4, max, x);
    NoCursorStays(script, max, x);
  }

  /** An empty first page with a cursor leads straight to the fetch with it. */
  lemma {:induction false} NextPageFetches(script: seq<Event>, max: nat, x: nat)
    requires |script| > 4 && script[..4] == PULLING && script[4] == Fetched(Page([], Some(x), true))
    ensures
      var f := FETCHING.mode.fetch;
      Reached(script, 5, max).mode == Fetching(Fetch(f.msg, [], f.left, Some(x), true))
  {
    PullingFetches(script, max);
    var f := FETCHING.mode.fetch;
    var page := TakePage(Spend(BeginFetch(FETCHING, f), f, FetchedWith), [], Some(x));
    assert Give(page, f.msg, [], f.left).mode == Fetching(Fetch(f.msg, [], f.left, Some(x), true));
    assert Reached(script, 5, max) == OnEvent(FETCHING, script[4], max) == Give(page, f.msg, [], f.left);
  }

  /** A cursor is forgotten when the deadline has passed as the fetch with it starts. */
  lemma {:induction false} DeadlineForgets(max: nat, x: nat)
    ensures
      var script := PULLING + [Fetched(Page([], Some(x), true)), DeadlinePassed];
      ForgetsAt(script, 5, max, x) && 0 < Count(Whole(script, max), Forgotten, x)
  {
    var script := PULLING + [Fetched(Page([], Some(x), true)), DeadlinePassed];
    NextPageFetches(script, max, x);
    assert ForgetsAt(script, 5, max, x);
    NoCursorStays(script, max, x);
  }

  /** A RESET that comes before the fetch with a cursor has begun leaves nobody to release it. */
  lemma {:induction false} ResetInterrupts(max: nat, x: nat)
    ensures
      var script := PULLING + [Fetched(Page([], Some(x), true)), Arrives(Reset)];
      InterruptsAt(script, 5, max, x) && 0 < Count(Whole(script, max), Interrupted, x)
  {
    var script := PULLING + [Fetched(Page([], Some(x), true)), Arrives(Reset)];
    NextPageFetches(script, max, x);
    assert InterruptsAt(script, 5, max, x);
    NoCursorStays(script, max, x);
  }
}
