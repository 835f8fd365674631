/**
 Which frames of a Bolt connection are never answered, and what kind of answer a RESET, a
 failure and a failed connection give.
 */
module BoltReplies {
  import opened Base
  import opened BoltMachine
  import opened BoltRuns
  import opened BoltFrames

  // ----- an event, then the queue

  /** What an event does before the queue gets its turn; a message to an idle connection is queued first. */
  function BeforeQueue(c: Conn, e: Event, max: nat): Conn {
    match c.mode
    case Closed(_) => c
    case Idle =>
      (match e
       case Arrives(msg) => c.(queued := c.queued + [msg])
       case Malformed => Send(c, Failure).(state := Failed)
       case _ => c)
    case Fetching(f) =>
      if f.starting && e.DeadlinePassed? then EndFetch(Spend(c, f, Forgotten), f)
      else DuringFetch(BeginFetch(c, f), f.(starting := false), e, max)
  }

  lemma {:induction false} EventThenQueue(c: Conn, e: Event, max: nat)
    requires c.mode.Idle? ==> c.queued == []
    ensures OnEvent(c, e, max) == Drain(BeforeQueue(c, e, max))
  {
    hide DuringFetch;
    hide EndFetch;
    if c.mode.Idle? && e.Arrives? {
      var full := c.(queued := [e.msg]);
      assert c.queued + [e.msg] == [e.msg];
      assert full.(queued := full.queued[1..]) == c;
    }
  }

  /** The connection when the first `k` queued messages have been handled, or an earlier one made it wait or close. */
  function Drained(c: Conn, k: nat): Conn
    requires k <= |c.queued|
    decreases k
  {
    if k == 0 || !c.mode.Idle? then c else Drained(Handle(c.(queued := c.queued[1..]), c.queued[0]), k - 1)
  }

  /** The queue's message `k` is a logon the services refuse, and it finds the connection in authentication. */
  predicate Refuses(c: Conn, k: nat) {
    && k < |c.queued| && c.queued[k] == Logon(false)
    && Drained(c, k).mode.Idle? && Drained(c, k).state.Authentication?
  }

  lemma {:induction false} HandleCounts(c: Conn, msg: Msg)
    requires c.mode.Idle? && !msg.Goodbye?
    ensures
      var c' := Handle(c, msg);
      && SummaryCount(c'.sent) == SummaryCount(c.sent) + (if c'.mode.Fetching? then 0 else 1)
      && (c'.mode.Closed? <==> c.state.Authentication? && msg == Logon(false))
      && (c'.mode.Closed? ==> c'.mode == Closed(LogonRefused))
  {
    hide Give;
    hide SummaryCount;
    if !GivesRows(c.state, msg) {
      RespondSends(c, msg);
      var m :| IsSummary(m) && Respond(c, msg).sent == c.sent + [m];
      SentOne(c.sent, m);
    } else if CountOf(msg).Ok? {
      GiveCounts(c, msg, [], Limit(CountOf(msg).value));
      SentOne(c.sent, Failure);
    } else {
      SentOne(c.sent, Failure);
    }
  }

  /** A refused logon closes the connection with every message up to itself answered. */
  lemma {:induction false} RefusalCloses(c: Conn, k: nat)
    requires c.mode.Idle? && Goodbye !in c.queued && Refuses(c, k)
    ensures Drain(c).mode == Closed(LogonRefused) && SummaryCount(Drain(c).sent) == SummaryCount(c.sent) + k + 1
    decreases k
  {
    hide Handle;
    hide SummaryCount;
    var rest := c.(queued := c.queued[1..]);
    HandleCounts(rest, c.queued[0]);
    if k > 0 {
      assert Drained(c, k) == Drained(Handle(rest, c.queued[0]), k - 1);
      RefusalCloses(Handle(rest, c.queued[0]), k - 1);
    }
  }

  lemma {:induction false} RefusalFound(c: Conn) returns (k: nat)
    requires c.mode.Idle? && Goodbye !in c.queued && Drain(c).mode == Closed(LogonRefused)
    ensures Refuses(c, k)
    decreases |c.queued|
  {
    hide Handle;
    var rest := c.(queued := c.queued[1..]);
    HandleCounts(rest, c.queued[0]);
    if Handle(rest, c.queued[0]).mode.Closed? {
      k := 0;
    } else {
      k := RefusalFound(Handle(rest, c.queued[0]));
      k := k + 1;
    }
  }

  // ----- the frames that are never answered

  /** The client leaves with event `q`, or with the end of the channel, while a page is being fetched. */
  predicate LeavesAt(script: seq<Event>, q: nat, max: nat)
    requires q <= |script|
  {
    Reached(script, q, max).mode.Fetching? && (q == |script| || script[q] == Arrives(Goodbye))
  }

  /** Frame `i` is in hand or queued when event `q` comes. */
  predicate WaitsAt(script: seq<Event>, q: nat, max: nat, i: nat)
    requires q <= |script|
  {
    SummaryCount(Reached(script, q, max).sent) <= i < |Kept(script, q, max)|
  }

  /** Working off the queue after event `q`, its message `k` is a refused logon, and frame `i` is behind it. */
  predicate RefusedBefore(script: seq<Event>, q: nat, max: nat, k: nat, i: nat)
    requires q < |script|
  {
    && var c := BeforeQueue(Reached(script, q, max), script[q], max);
    && c.mode.Idle? && Refuses(c, k) && SummaryCount(c.sent) + k < i
  }

  lemma {:induction false} ClosedKeeps(script: seq<Event>, p: nat, end: nat, max: nat)
    requires p <= end <= |script| && Reached(script, p, max).mode.Closed?
    ensures Kept(script, end, max) == Kept(script, p, max)
    decreases end
  {
    hide OnEvent;
    if p < end {
      ClosedForGood(script, p, end - 1, max);
      ClosedKeeps(script, p, end - 1, max);
    }
  }

  lemma {:induction false} FinishSends(c: Conn)
    ensures Finish(c).sent == c.sent
  {
  }

  /** Nothing is sent as the client leaves. */
  lemma {:induction false} GoodbyeSends(c: Conn, max: nat)
    requires !c.mode.Closed? && (c.mode.Idle? ==> c.queued == [])
    ensures OnEvent(c, Arrives(Goodbye), max).mode.Closed? && OnEvent(c, Arrives(Goodbye), max).sent == c.sent
  {
  }

  lemma {:induction false} LeavingIsLast(script: seq<Event>, q: nat, max: nat)
    requires q < |script| && script[q] == Arrives(Goodbye) && !Reached(script, q, max).mode.Closed?
    ensures Whole(script, max).sent == Reached(script, q, max).sent
    ensures Kept(script, |script|, max) == Kept(script, q, max) + [Good(Goodbye)]
  {
    hide OnEvent;
    IdleIsDone(script, q, max);
    GoodbyeSends(Reached(script, q, max), max);
    ClosedForGood(script, q + 1, |script|, max);
    ClosedKeeps(script, q + 1, |script|, max);
    FinishSends(Reached(script, |script|, max));
  }

  lemma {:induction false} QueueIsOrderly(script: seq<Event>, q: nat, max: nat)
    requires q < |script| && !Reached(script, q, max).mode.Closed?
    requires !(Reached(script, q, max).mode.Idle? && script[q] == Arrives(Goodbye))
    ensures Goodbye !in BeforeQueue(Reached(script, q, max), script[q], max).queued
  {
    hide OnEvent;
    hide Give;
    ClosesExactly(script, q, max);
    IdleIsDone(script, q, max);
  }

  /** The answers stop at a refused logon. */
  lemma {:induction false} RefusalIsLast(script: seq<Event>, q: nat, max: nat, k: nat)
    requires q < |script|
    requires
      var c := BeforeQueue(Reached(script, q, max), script[q], max);
      c.mode.Idle? && Refuses(c, k)
    ensures
      var c := BeforeQueue(Reached(script, q, max), script[q], max);
      && Whole(script, max).mode == Closed(LogonRefused)
      && SummaryCount(Whole(script, max).sent) == SummaryCount(c.sent) + k + 1
  {
    hide OnEvent;
    hide BeforeQueue;
    hide Refuses;
    hide SummaryCount;
    var was := Reached(script, q, max);
    var c := BeforeQueue(was, script[q], max);
    IdleIsDone(script, q, max);
    EventThenQueue(was, script[q], max);
    IdleBefore(was, script[q], max, k);
    QueueIsOrderly(script, q, max);
    RefusalCloses(c, k);
    ClosedForGood(script, q + 1, |script|, max);
    FinishSends(Reached(script, |script|, max));
  }

  lemma {:induction false} IdleBefore(c: Conn, e: Event, max: nat, k: nat)
    requires BeforeQueue(c, e, max).mode.Idle? && Refuses(BeforeQueue(c, e, max), k) && (c.mode.Idle? ==> c.queued == [])
    ensures !c.mode.Closed? && !(c.mode.Idle? && e == Arrives(Goodbye))
  {
  }

  /** A connection closed by a refused logon met it at some event. */
  lemma {:induction false} RefusalAt(script: seq<Event>, p: nat, max: nat) returns (q: nat, k: nat)
    requires p <= |script| && Reached(script, p, max).mode == Closed(LogonRefused)
    ensures q < p
    ensures
      var c := BeforeQueue(Reached(script, q, max), script[q], max);
      c.mode.Idle? && Refuses(c, k)
  {
    hide OnEvent;
    hide Refuses;
    var was := Reached(script, p - 1, max);
    if was.mode.Closed? {
      ClosedStays(was, script[p - 1], max);
      q, k := RefusalAt(script, p - 1, max);
    } else {
      q := p - 1;
      IdleIsDone(script, q, max);
      EventThenQueue(was, script[q], max);
      ClosesExactly(script, p, max);
      QueueIsOrderly(script, q, max);
      k := RefusalFound(BeforeQueue(was, script[q], max));
    }
  }

  /** A GOODBYE that is kept is the last frame kept, and nothing answers it. */
  lemma {:induction false} GoodbyeUnanswered(script: seq<Event>, p: nat, max: nat, i: nat)
    requires p <= |script| && i < |Kept(script, p, max)| && Kept(script, p, max)[i] == Good(Goodbye)
    ensures SummaryCount(Whole(script, max).sent) <= i
  {
    hide OnEvent;
    hide SummaryCount;
    hide Loses;
    if i < |Kept(script, p - 1, max)| {
      GoodbyeUnanswered(script, p - 1, max, i);
    } else {
      LeavingIsLast(script, p - 1, max);
      FramesAnswered(script, p - 1, max);
    }
  }

  /**
   A frame that was kept is never answered exactly when it is the GOODBYE, or is in hand or queued as the client
   leaves during a fetch, or is queued behind a logon that is refused.
   */
  lemma {:induction false} UnansweredExactly(script: seq<Event>, max: nat, i: nat)
    requires i < |Kept(script, |script|, max)|
    ensures SummaryCount(Whole(script, max).sent) <= i <==>
      || Kept(script, |script|, max)[i] == Good(Goodbye)
      || (exists q :: 0 <= q <= |script| && LeavesAt(script, q, max) && WaitsAt(script, q, max, i))
      || (exists q, k :: 0 <= q < |script| && RefusedBefore(script, q, max, k, i))
  {
    hide OnEvent;
    hide BeforeQueue;
    hide SummaryCount;
    hide Kept;
    if SummaryCount(Whole(script, max).sent) <= i {
      SomeReason(script, max, i);
    } else {
      NoReason(script, max, i);
    }
  }

  lemma {:induction false} NoReason(script: seq<Event>, max: nat, i: nat)
    requires i < |Kept(script, |script|, max)| && i < SummaryCount(Whole(script, max).sent)
    ensures Kept(script, |script|, max)[i] != Good(Goodbye)
    ensures forall q :: 0 <= q <= |script| ==> !(LeavesAt(script, q, max) && WaitsAt(script, q, max, i))
    ensures forall q, k :: 0 <= q < |script| ==> !RefusedBefore(script, q, max, k, i)
  {
    hide OnEvent;
    hide BeforeQueue;
    hide SummaryCount;
    hide Kept;
    hide Refuses;
    if Kept(script, |script|, max)[i] == Good(Goodbye) {
      GoodbyeUnanswered(script, |script|, max, i);
    }
    forall q | 0 <= q <= |script| && LeavesAt(script, q, max) ensures !WaitsAt(script, q, max, i) {
      if q == |script| {
        FinishSends(Reached(script, q, max));
      } else {
        LeavingIsLast(script, q, max);
      }
    }
    forall q, k | 0 <= q < |script| && RefusedBefore(script, q, max, k, i) ensures false {
      RefusalIsLast(script, q, max, k);
    }
  }

  lemma {:induction false} SomeReason(script: seq<Event>, max: nat, i: nat)
    requires SummaryCount(Whole(script, max).sent) <= i < |Kept(script, |script|, max)|
    ensures
      || Kept(script, |script|, max)[i] == Good(Goodbye)
      || (exists q :: 0 <= q <= |script| && LeavesAt(script, q, max) && WaitsAt(script, q, max, i))
      || (exists q, k :: 0 <= q < |script| && RefusedBefore(script, q, max, k, i))
  {
    hide OnEvent;
    hide BeforeQueue;
    hide SummaryCount;
    hide Kept;
    hide Refuses;
    hide Settled;
    var n := |script|;
    var c := Reached(script, n, max);
    FinishSends(c);
    CutExactly(script, max);
    match Whole(script, max).mode.closing
    case ChannelClosed =>
      IdleOwesNothing(script, n, max);
      assert false;
    case LogonRefused =>
      var q, k := RefusalAt(script, n, max);
      RefusalIsLast(script, q, max, k);
      assert RefusedBefore(script, q, max, k, i);
    case SaidGoodbye =>
      var q :| 0 <= q < n && GoodbyeAt(script, q, max, false);
      LeavingIsLast(script, q, max);
      IdleOwesNothing(script, q, max);
    case CutShort(_, _) =>
      if c.mode.Fetching? {
        assert LeavesAt(script, n, max) && WaitsAt(script, n, max, i);
      } else {
        var q :| 0 <= q < n && GoodbyeAt(script, q, max, true);
        LeavingIsLast(script, q, max);
        if i < |Kept(script, q, max)| {
          assert LeavesAt(script, q, max) && WaitsAt(script, q, max, i);
        }
      }
  }

  /** GOODBYE leaves a queued PULL without an answer beside the one in hand. */
  lemma {:induction false} GoodbyeCutsQueue(max: nat)
    requires 1 <= max
    ensures Owed(Whole(PULLING + [Arrives(PULL_ALL), Arrives(Goodbye)], max)) ==
      [Good(PULL_ALL), Good(PULL_ALL), Good(Goodbye)]
  {
    var script := PULLING + [Arrives(PULL_ALL), Arrives(Goodbye)];
    PullingFetches(script, max);
    var f := FETCHING.mode.fetch.(starting := false);
    var c := BeginFetch(FETCHING, FETCHING.mode.fetch).(queued := [PULL_ALL]);
    assert [] + [PULL_ALL] == [PULL_ALL];
    assert Reached(script, 5, max) == OnEvent(FETCHING, script[4], max) == c;
    assert Reached(script, 6, max) == OnEvent(c, script[5], max) == Leave(Spend(c, f, Interrupted), f, true);
  }

  /** A refused logon leaves the PULL queued behind it without an answer. */
  lemma {:induction false} RefusalCutsQueue(max: nat)
    requires 3 <= max
    ensures
      var late := [Arrives(Logoff), Arrives(Logon(false)), Arrives(PULL_ALL), Fetched(Page([], None, true))];
      var c := Whole(PULLING + late, max);
      c.mode == Closed(LogonRefused) && Owed(c) == [Good(PULL_ALL)]
  {
    hide Drain;
    var late := [Arrives(Logoff), Arrives(Logon(false)), Arrives(PULL_ALL), Fetched(Page([], None, true))];
    var script := PULLING + late;
    PullingFetches(script, max);
    var f := FETCHING.mode.fetch.(starting := false);
    var c := BeginFetch(FETCHING, FETCHING.mode.fetch);
    QueueGrows(FETCHING, Logoff, max);
    QueueGrows(c.(queued := [Logoff]), Logon(false), max);
    QueueGrows(c.(queued := [Logoff, Logon(false)]), PULL_ALL, max);
    assert Reached(script, 5, max) == c.(queued := [Logoff]);
    assert Reached(script, 6, max) == c.(queued := [Logoff, Logon(false)]);
    assert Reached(script, 7, max) == c.(queued := [Logoff, Logon(false), PULL_ALL]);
    RefusalDrains(c.(queued := [Logoff, Logon(false), PULL_ALL]), f, max);
    assert Reached(script, 8, max) == OnEvent(Reached(script, 7, max), late[3], max);
  }

  lemma {:induction false} QueueGrows(c: Conn, msg: Msg, max: nat)
    requires c.mode.Fetching? && |c.queued| < max && !msg.Reset? && !msg.Goodbye?
    ensures OnEvent(c, Arrives(msg), max) == BeginFetch(c, c.mode.fetch).(queued := c.queued + [msg])
  {
  }

  lemma {:induction false} RefusalDrains(c: Conn, f: Fetch, max: nat)
    requires c.mode == Fetching(f) && f.left > 0 && c.queued == [Logoff, Logon(false), PULL_ALL]
    requires c.s == Session(true, Some(Pending(true, [], None)))
    ensures
      var c' := OnEvent(c, Fetched(Page([], None, true)), max);
      c'.mode == Closed(LogonRefused) && c'.queued == [PULL_ALL]
  {
    var page := TakePage(Spend(BeginFetch(c, f), f, FetchedWith), [], None);
    var done := Summarize(page, f.msg, f.given);
    assert Give(page, f.msg, f.given, f.left) == done;
    assert done.mode.Idle? && done.state.Ready? && done.s == Session(true, None);
    var off := Handle(done.(queued := done.queued[1..]), Logoff);
    assert off.mode.Idle? && off.state.Authentication? && off.queued == [Logon(false), PULL_ALL];
    var refused := Handle(off.(queued := off.queued[1..]), Logon(false));
    assert refused.mode == Closed(LogonRefused);
    assert Drain(done) == Drain(off) == refused;
  }

  // ----- the kind of answer

  /** The states in which a RESET is not accepted: before the client has logged on. */
  predicate BeforeLogon(state: BoltState) { state.Negotiation? || state.Authentication? }

  /**
   A RESET is answered with IGNORED for every frame that waited and SUCCESS for itself, and leaves an idle connection
   without a result, unless it comes before the client has logged on: then it is a failure like any other message.
   */
  lemma {:induction false} ResetAnswered(script: seq<Event>, p: nat, max: nat)
    requires p < |script| && script[p] == Arrives(Reset) && !Reached(script, p, max).mode.Closed?
    ensures 0 <= Unanswered(script, p, max)
    ensures
      var c, c' := Reached(script, p, max), Reached(script, p + 1, max);
      && c'.mode.Idle? && c'.queued == [] && c'.s.pending.None?
      && (if BeforeLogon(c.state) then c'.sent == c.sent + [Failure] && c'.state.Failed?
          else
            && c'.sent == c.sent + Ignoreds(Unanswered(script, p, max)) + [Success(None)]
            && c'.state == if c.s.authenticated then Ready else Authentication)
  {
    hide Balanced;
    hide BooksOk;
    EveryRunOk(script, p, max);
    BacklogIs(script, p, max);
    var c := Reached(script, p, max);
    if c.mode.Idle? {
      assert c.sent + Ignoreds(0) == c.sent;
      assert BeforeLogon(c.state) || Accepts(c.state, Reset);
    } else {
      assert c.state.Streaming? && c.s.authenticated;
      var f := c.mode.fetch;
      assert OnEvent(c, Arrives(Reset), max) ==
        ResetFetch(Spend(BeginFetch(c, f), f.(starting := false), Interrupted), f.(starting := false));
    }
  }

  /** What is unanswered while the connection reads: nothing when idle, else the message in hand and the queue. */
  lemma {:induction false} BacklogIs(script: seq<Event>, p: nat, max: nat)
    requires p <= |script| && !Reached(script, p, max).mode.Closed?
    ensures
      var c := Reached(script, p, max);
      Unanswered(script, p, max) == if c.mode.Idle? then 0 else 1 + |c.queued|
  {
    hide OnEvent;
    FramesAnswered(script, p, max);
    IdleIsDone(script, p, max);
  }

  /** A failed connection answers every frame but RESET and GOODBYE with IGNORED, or FAILURE if malformed, and stays failed. */
  lemma {:induction false} FailedIgnores(script: seq<Event>, p: nat, max: nat)
    requires p < |script| && Reached(script, p, max).state.Failed? && !Reached(script, p, max).mode.Closed?
    requires script[p] != Arrives(Reset) && script[p] != Arrives(Goodbye)
    ensures
      var c, c' := Reached(script, p, max), Reached(script, p + 1, max);
      c' == match script[p]
            case Arrives(_) => Send(c, Ignored)
            case Malformed => Send(c, Failure)
            case _ => c
  {
    hide BooksOk;
    EveryRunOk(script, p, max);
  }

  /** Events that make the row message in hand fail. */
  predicate FailsFetch(c: Conn, e: Event, max: nat) {
    && c.mode.Fetching?
    && match e
       case DeadlinePassed => c.mode.fetch.starting
       case Fetched(result) => result.PageError? || !result.sameColumns
       case _ => Loses(c, e, max)
  }

  /** When a fetch fails its row message gets FAILURE and every message queued behind it IGNORED, in order. */
  lemma {:induction false} FailureIgnoresQueue(script: seq<Event>, p: nat, max: nat)
    requires p < |script| && FailsFetch(Reached(script, p, max), script[p], max)
    ensures
      var c, c' := Reached(script, p, max), Reached(script, p + 1, max);
      && c'.sent == c.sent + [Failure] + Ignoreds(|c.queued|)
      && c'.mode.Idle? && c'.state.Failed? && c'.queued == [] && c'.s.pending.None?
  {
    hide OnEvent;
    hide Drain;
    var c, e := Reached(script, p, max), script[p];
    ClosesExactly(script, p, max);
    EventThenQueue(c, e, max);
    FailedFetch(c, e, max);
    IgnoresAll(BeforeQueue(c, e, max));
  }

  lemma {:induction false} FailedFetch(c: Conn, e: Event, max: nat)
    requires FailsFetch(c, e, max)
    ensures
      var c' := BeforeQueue(c, e, max);
      && c'.sent == c.sent + [Failure] && c'.queued == c.queued
      && c'.mode.Idle? && c'.state.Failed? && c'.s.pending.None?
  {
  }

  lemma {:induction false} IgnoresAll(c: Conn)
    requires c.mode.Idle? && c.state.Failed? && Queueable(c.queued)
    ensures Drain(c) == c.(sent := c.sent + Ignoreds(|c.queued|), queued := [])
    decreases |c.queued|
  {
    if c.queued == [] {
      assert c.sent + Ignoreds(0) == c.sent;
    } else {
      var next := Handle(c.(queued := c.queued[1..]), c.queued[0]);
      assert next == Send(c.(queued := c.queued[1..]), Ignored);
      IgnoresAll(next);
      assert c.sent + [Ignored] + Ignoreds(|next.queued|) == c.sent + Ignoreds(|c.queued|);
    }
  }

  // ----- what each state answers

  /** What an idle connection answers to a message that gives out no rows, and the state it is in then. */
  function Answer(state: BoltState, authenticated: bool, msg: Msg): (ServerMsg, BoltState)
    requires !msg.Goodbye?
  {
    match state
    case Negotiation => if msg.Hello? then (Success(None), Authentication) else (Failure, Failed)
    case Authentication =>
      if msg == Logon(true) then (Success(None), Ready)
      else if msg == Logon(false) then (Failure, Authentication)
      else (Failure, Failed)
    case Ready =>
      if msg == Run(true) then (Success(None), Streaming)
      else if msg.Logoff? then (Success(None), Authentication)
      else if msg.Reset? || msg.Telemetry? || msg == Route(true) then (Success(None), Ready)
      else (Failure, Failed)
    case Streaming => if msg.Reset? then (Success(None), Ready) else (Failure, Failed)
    case Failed =>
      if msg.Reset? then (Success(None), if authenticated then Ready else Authentication) else (Ignored, Failed)
  }

  /** What is left of a result: RUN makes one, RESET and LOGOFF end it, anything else leaves it. */
  function ResultAfter(c: Conn, msg: Msg): Option<Pending> {
    if c.state.Ready? && msg == Run(true) then Some(Pending(false, [], None))
    else if msg.Reset? && !BeforeLogon(c.state) then None
    else c.s.pending
  }

  /** Every message but GOODBYE and the row messages of a stream gets its state's answer; only a refused logon closes. */
  lemma {:induction false} AnswersExactly(c: Conn, msg: Msg)
    requires IdleOk(c) && !msg.Goodbye? && !GivesRows(c.state, msg)
    ensures
      var c', (reply, next) := Handle(c, msg), Answer(c.state, c.s.authenticated, msg);
      && c'.sent == c.sent + [reply] && c'.state == next && c'.s.pending == ResultAfter(c, msg)
      && c'.s.authenticated == (next.Ready? || next.Streaming? || (next.Failed? && c.s.authenticated))
      && c'.mode == if c.state.Authentication? && msg == Logon(false) then Closed(LogonRefused) else Idle
  {
    hide BooksOk;
    hide RecordsOf;
  }

  // ----- what a row message gives out

  function Records(rows: seq<Row>): seq<ServerMsg> {
    seq(|rows|, i requires 0 <= i < |rows| => Record(rows[i]))
  }

  lemma {:induction false} RecordsFront(sent: seq<ServerMsg>, rows: seq<Row>, n: nat)
    requires 0 < n <= |rows|
    ensures sent + [Record(rows[0])] + Records(rows[1..][..n - 1]) == sent + Records(rows[..n])
  {
    assert Records(rows[..n]) == [Record(rows[0])] + Records(rows[1..][..n - 1]);
  }

  /** The first of the rows a PULL would give out that cannot be sent is row `i`. */
  predicate StopsAt(msg: Msg, rows: seq<Row>, left: nat, i: nat) {
    msg.Pull? && i < left && i < |rows| && !rows[i].sendable && forall k :: 0 <= k < i ==> rows[k].sendable
  }

  /** A PULL that comes to a row it cannot send sends the rows before it and fails. */
  lemma {:induction false} PullStops(c: Conn, msg: Msg, given: seq<Row>, left: nat, i: nat)
    requires c.mode.Idle? && c.s.pending.Some? && StopsAt(msg, LeftOf(c).rows, left, i)
    ensures
      var c' := Give(c, msg, given, left);
      && c'.sent == c.sent + Records(LeftOf(c).rows[..i]) + [Failure]
      && c'.mode.Idle? && c'.state.Failed? && c'.s.pending.None?
    decreases left
  {
    var p := LeftOf(c);
    if i == 0 {
      assert c.sent + Records(p.rows[..0]) == c.sent;
    } else {
      var next := GiveRow(c, msg, p);
      PullStops(next, msg, given + [p.rows[0]], left - 1, i - 1);
      RecordsFront(c.sent, p.rows, i);
    }
  }

  /** Every row the message would give out of the buffer can be given out. */
  predicate Unstopped(msg: Msg, rows: seq<Row>, left: nat) {
    msg.Discard? || (msg.Pull? && forall k :: 0 <= k < left && k < |rows| ==> rows[k].sendable)
  }

  /** The rows a message gives out of the buffer, as it sends them. */
  function SentOf(msg: Msg, rows: seq<Row>, n: nat): seq<ServerMsg>
    requires n <= |rows|
  {
    if msg.Pull? then Records(rows[..n]) else []
  }

  /**
   A message gave out the front of the buffer, as far as it might and as far as there was one: PULL sent the rows,
   DISCARD dropped them. If it had then given out all it might, or nothing was left to fetch, it ended and told
   whether rows or a cursor are left. Else it went on to fetch, with the cursor if the result was started.
   */
  predicate Gave(c: Conn, msg: Msg, given: seq<Row>, left: nat, c': Conn) {
    var p := LeftOf(c);
    var n := Min(left, |p.rows|);
    if left <= |p.rows| || (p.started && p.next.None?) then
      var more := n < |p.rows| || p.next.Some?;
      && c'.sent == c.sent + SentOf(msg, p.rows, n) + [Success(Some(more))] && c'.mode.Idle?
      && c'.state == (if more then c.state else Ready)
      && c'.s.pending == if more then Some(p.(rows := p.rows[n..])) else None
    else
      && c'.sent == c.sent + SentOf(msg, p.rows, n) && c'.state == c.state
      && c'.s.pending == Some(Pending(true, [], if p.started then None else p.next))
      && c'.mode == Fetching(Fetch(msg, given + p.rows, left - n, if p.started then p.next else None, true))
  }

  lemma {:induction false} GaveNone(c: Conn, msg: Msg, given: seq<Row>, left: nat)
    requires c.mode.Idle? && c.s.pending.Some? && (left == 0 || LeftOf(c).rows == [])
    ensures Gave(c, msg, given, left, Give(c, msg, given, left))
  {
    var p := LeftOf(c);
    assert c.sent + SentOf(msg, p.rows, 0) == c.sent;
    assert given + [] == given && p.rows[0..] == p.rows;
  }

  lemma {:induction false} GaveOne(c: Conn, msg: Msg, given: seq<Row>, left: nat, c': Conn)
    requires c.s.pending.Some? && LeftOf(c).rows != [] && 0 < left && (msg.Pull? || msg.Discard?)
    requires Gave(GiveRow(c, msg, LeftOf(c)), msg, given + [LeftOf(c).rows[0]], left - 1, c')
    ensures Gave(c, msg, given, left, c')
  {
    hide Records;
    var p := LeftOf(c);
    var n := Min(left, |p.rows|);
    RecordsFront(c.sent, p.rows, n);
    assert given + [p.rows[0]] + p.rows[1..] == given + p.rows;
    assert p.rows[1..][n - 1..] == p.rows[n..];
  }

  /** A message none of whose rows fails gives out just that. */
  lemma {:induction false} GivesExactly(c: Conn, msg: Msg, given: seq<Row>, left: nat)
    requires c.mode.Idle? && c.s.pending.Some? && Unstopped(msg, LeftOf(c).rows, left)
    ensures Gave(c, msg, given, left, Give(c, msg, given, left))
    decreases left
  {
    hide Gave;
    var p := LeftOf(c);
    if left == 0 || p.rows == [] {
      GaveNone(c, msg, given, left);
    } else {
      GivesExactly(GiveRow(c, msg, p), msg, given + [p.rows[0]], left - 1);
      GaveOne(c, msg, given, left, Give(c, msg, given, left));
    }
  }

  /** A row message that is not refused gives out up to the rows it names, or all, from the start of the buffer. */
  lemma {:induction false} RowMessageGives(c: Conn, msg: Msg)
    requires IdleOk(c) && c.state.Streaming? && IsRowMsg(msg)
    ensures c.s.pending.Some? && Handle(c, msg) == Give(c, msg, [], LimitOf(msg))
  {
    hide BooksOk;
    hide Give;
    CountIsAsked(msg);
  }

  /** A page with the result's columns goes to the buffer with its cursor, and the message goes on with the rows it has left. */
  lemma {:induction false} PageGives(c: Conn, f: Fetch, rows: seq<Row>, next: Option<nat>)
    requires FetchOk(c, f)
    ensures
      var page := OnPage(c, f, Page(rows, next, true));
      exists c1: Conn ::
        && c1.mode.Idle? && c1.s == c.s.(pending := Some(Pending(true, rows, next))) && c1.sent == c.sent
        && c1.state == c.state && c1.queued == c.queued && page == Give(c1, f.msg, f.given, f.left)
  {
    hide BooksOk;
    hide Give;
    var c1 := TakePage(Spend(c, f, FetchedWith), rows, next);
    assert [] + rows == rows;
    assert OnPage(c, f, Page(rows, next, true)) == Give(c1, f.msg, f.given, f.left);
  }
}
