/**
 Every frame of a Bolt connection is answered once and in arrival order, but for the frames
 it loses and those still owed an answer when it closes.
 */
module BoltFrames {
  import opened Base
  import opened BoltMachine
  import opened BoltRuns

  /** What a client sent and is owed one summary for. */
  datatype Frame = Good(msg: Msg) | Bad

  function FrameOf(e: Event): seq<Frame> {
    match e
    case Arrives(msg) => [Good(msg)]
    case Malformed => [Bad]
    case _ => []
  }

  function Goods(msgs: seq<Msg>): seq<Frame> {
    seq(|msgs|, i requires 0 <= i < |msgs| => Good(msgs[i]))
  }

  /** A frame is lost when it comes during a fetch and is malformed or finds the queue full. */
  predicate Loses(c: Conn, e: Event, max: nat) {
    && c.mode.Fetching?
    && (e.Malformed? || (e.Arrives? && !e.msg.Reset? && !e.msg.Goodbye? && max <= |c.queued|))
  }

  predicate Lost(script: seq<Event>, p: nat, max: nat)
    requires p < |script|
  {
    Loses(Reached(script, p, max), script[p], max)
  }

  /** The frames a connection in state `c` gets from event `e` and does not lose. */
  function Gets(c: Conn, e: Event, max: nat): seq<Frame> {
    if c.mode.Closed? || Loses(c, e, max) then [] else FrameOf(e)
  }

  /** The frames among the first `p` events that the connection got and did not lose, in arrival order. */
  function Kept(script: seq<Event>, p: nat, max: nat): seq<Frame>
    requires p <= |script|
  {
    if p == 0 then [] else Kept(script, p - 1, max) + Gets(Reached(script, p - 1, max), script[p - 1], max)
  }

  /** The frames not answered yet: the message in hand, the queue, and a GOODBYE that cut them off. */
  function Owed(c: Conn): seq<Frame> {
    match c.mode
    case Idle => Goods(c.queued)
    case Fetching(f) => [Good(f.msg)] + Goods(c.queued)
    case Closed(SaidGoodbye) => [Good(Goodbye)] + Goods(c.queued)
    case Closed(CutShort(msg, goodbye)) => [Good(msg)] + Goods(c.queued) + (if goodbye then [Good(Goodbye)] else [])
    case Closed(_) => Goods(c.queued)
  }

  /** Of the frames kept, `n` are answered and `owed` are not. */
  ghost predicate Settled(kept: seq<Frame>, n: nat, owed: seq<Frame>) {
    n + |owed| == |kept| && kept[n..] == owed
  }

  /** The summaries sent answer the first frames; a refused logon was the last of them. */
  ghost predicate Balanced(kept: seq<Frame>, c: Conn) {
    && var n := SummaryCount(c.sent);
    && Settled(kept, n, Owed(c))
    && (c.mode == Closed(LogonRefused) ==>
          0 < n && kept[n - 1] == Good(Logon(false)) && c.sent != [] && c.sent[|c.sent| - 1] == Failure)
  }

  lemma {:induction false} Pays(kept: seq<Frame>, n: nat, first: Frame, rest: seq<Frame>)
    requires Settled(kept, n, [first] + rest)
    ensures Settled(kept, n + 1, rest) && kept[n] == first
  {
    assert kept[n] == kept[n..][0];
    assert kept[n + 1..] == kept[n..][1..];
  }

  lemma {:induction false} Owes(kept: seq<Frame>, n: nat, owed: seq<Frame>, more: seq<Frame>)
    requires Settled(kept, n, owed)
    ensures Settled(kept + more, n, owed + more)
  {
  }

  lemma {:induction false} EndCounts(c: Conn, msg: Msg, given: seq<Row>)
    requires c.mode.Idle?
    ensures SummaryCount(Summarize(c, msg, given).sent) == SummaryCount(c.sent) + 1 && Summarize(c, msg, given).mode.Idle?
    ensures SummaryCount(FailRows(c, msg, given).sent) == SummaryCount(c.sent) + 1 && FailRows(c, msg, given).mode.Idle?
  {
    SentOne(c.sent, Success(Some(HasMore(LeftOf(c)))));
    SentOne(c.sent, Failure);
  }

  lemma {:induction false} GiveCounts(c: Conn, msg: Msg, given: seq<Row>, left: nat)
    requires c.mode.Idle?
    ensures
      var c' := Give(c, msg, given, left);
      && SummaryCount(c'.sent) == SummaryCount(c.sent) + (if c'.mode.Idle? then 1 else 0)
      && (c'.mode.Fetching? ==> c'.mode.fetch.msg == msg)
    decreases left
  {
    hide SummaryCount;
    hide RecordsOf;
    hide Summarize;
    hide FailRows;
    var p := LeftOf(c);
    EndCounts(c, msg, given);
    if left != 0 && p.rows != [] {
      EndCounts(SkipRow(c, p), msg, given);
      if !(msg.Pull? && !p.rows[0].sendable) {
        SentOne(c.sent, Record(p.rows[0]));
        GiveCounts(GiveRow(c, msg, p), msg, given + [p.rows[0]], left - 1);
      }
    }
  }

  /** The reply a plain message gets, and when it closes the connection. */
  lemma {:induction false} RespondSends(c: Conn, msg: Msg)
    requires c.mode.Idle?
    ensures
      var c' := Respond(c, msg);
      && c'.queued == c.queued
      && (c'.mode == Closed(SaidGoodbye) <==> msg.Goodbye?)
      && (c'.mode == Closed(LogonRefused) <==> c.state.Authentication? && msg == Logon(false))
      && (c'.mode.Idle? || c'.mode == Closed(SaidGoodbye) || c'.mode == Closed(LogonRefused))
      && (if msg.Goodbye? then c'.sent == c.sent
          else exists m :: IsSummary(m) && c'.sent == c.sent + [m] && (c'.mode.Closed? ==> m.Failure?))
  {
    var c' := Respond(c, msg);
    if !msg.Goodbye? {
      var m := if Accepts(c.state, msg) then Success(None) else if c.state.Failed? then Ignored else Failure;
      assert c'.sent == c.sent + [m];
    }
  }

  lemma {:induction false} RespondBalances(kept: seq<Frame>, c: Conn, msg: Msg)
    requires c.mode.Idle? && Settled(kept, SummaryCount(c.sent), [Good(msg)] + Goods(c.queued))
    ensures Balanced(kept, Respond(c, msg))
  {
    Pays(kept, SummaryCount(c.sent), Good(msg), Goods(c.queued));
    RespondSends(c, msg);
    var c' := Respond(c, msg);
    if !msg.Goodbye? {
      var m :| IsSummary(m) && c'.sent == c.sent + [m] && (c'.mode.Closed? ==> m.Failure?);
      SentOne(c.sent, m);
    }
  }

  lemma {:induction false} HandleBalances(kept: seq<Frame>, c: Conn, msg: Msg)
    requires c.mode.Idle? && Settled(kept, SummaryCount(c.sent), [Good(msg)] + Goods(c.queued))
    ensures Balanced(kept, Handle(c, msg))
  {
    Pays(kept, SummaryCount(c.sent), Good(msg), Goods(c.queued));
    if !GivesRows(c.state, msg) {
      RespondBalances(kept, c, msg);
    } else if CountOf(msg).Ok? {
      GiveCounts(c, msg, [], Limit(CountOf(msg).value));
    } else {
      SentOne(c.sent, Failure);
    }
  }

  lemma {:induction false} DrainBalances(kept: seq<Frame>, c: Conn)
    requires Balanced(kept, c)
    ensures Balanced(kept, Drain(c))
    decreases |c.queued|
  {
    if c.mode.Idle? && c.queued != [] {
      var rest := c.(queued := c.queued[1..]);
      assert Goods(c.queued) == [Good(c.queued[0])] + Goods(rest.queued);
      HandleBalances(kept, rest, c.queued[0]);
      DrainBalances(kept, Handle(rest, c.queued[0]));
    }
  }

  lemma {:induction false} EndFetchBalances(kept: seq<Frame>, c: Conn, f: Fetch)
    requires Settled(kept, SummaryCount(c.sent), [Good(f.msg)] + Goods(c.queued))
    ensures Balanced(kept, EndFetch(c, f))
  {
    Pays(kept, SummaryCount(c.sent), Good(f.msg), Goods(c.queued));
    SentOne(c.sent, Failure);
  }

  lemma {:induction false} OnPageBalances(kept: seq<Frame>, c: Conn, f: Fetch, result: FetchResult)
    requires Settled(kept, SummaryCount(c.sent), [Good(f.msg)] + Goods(c.queued))
    ensures Balanced(kept, OnPage(c, f, result))
  {
    hide Give;
    hide EndFetch;
    hide Settled;
    hide SummaryCount;
    hide Goods;
    var c := Spend(c, f, FetchedWith);
    EndFetchBalances(kept, c, f);
    match result
    case Page(rows, next, true) =>
      Pays(kept, SummaryCount(c.sent), Good(f.msg), Goods(c.queued));
      GiveCounts(TakePage(c, rows, next), f.msg, f.given, f.left);
    case Page(_, next, false) => EndFetchBalances(kept, RefusePage(c, next), f);
    case PageError =>
  }

  lemma {:induction false} ResetBalances(kept: seq<Frame>, c: Conn, f: Fetch)
    requires Settled(kept, SummaryCount(c.sent), [Good(f.msg)] + Goods(c.queued))
    ensures Balanced(kept + [Good(Reset)], ResetFetch(c, f))
  {
    SentIgnoreds(c.sent, 1 + |c.queued|);
    SentOne(c.sent + Ignoreds(1 + |c.queued|), Success(None));
    assert Goods([]) == [];
  }

  lemma {:induction false} OnMessageBalances(kept: seq<Frame>, c: Conn, f: Fetch, msg: Msg, max: nat)
    requires c.mode.Fetching? && c.mode.fetch.msg == f.msg
    requires Settled(kept, SummaryCount(c.sent), [Good(f.msg)] + Goods(c.queued))
    ensures Balanced(kept + Gets(c, Arrives(msg), max), OnMessage(c, f, msg, max))
  {
    hide Settled;
    hide ResetFetch;
    hide EndFetch;
    if msg.Reset? {
      ResetBalances(kept, Spend(c, f, Interrupted), f);
    } else if msg.Goodbye? {
      Owes(kept, SummaryCount(c.sent), [Good(f.msg)] + Goods(c.queued), [Good(msg)]);
    } else if |c.queued| >= max {
      EndFetchBalances(kept, Spend(c, f, Interrupted), f);
      assert kept + [] == kept;
    } else {
      Owes(kept, SummaryCount(c.sent), [Good(f.msg)] + Goods(c.queued), [Good(msg)]);
      assert Goods(c.queued + [msg]) == Goods(c.queued) + [Good(msg)];
      assert [Good(f.msg)] + Goods(c.queued) + [Good(msg)] == [Good(f.msg)] + (Goods(c.queued) + [Good(msg)]);
    }
  }

  lemma {:induction false} DuringFetchBalances(kept: seq<Frame>, c: Conn, f: Fetch, e: Event, max: nat)
    requires c.mode.Fetching? && c.mode.fetch.msg == f.msg
    requires Settled(kept, SummaryCount(c.sent), [Good(f.msg)] + Goods(c.queued))
    ensures Balanced(kept + Gets(c, e, max), DuringFetch(c, f, e, max))
  {
    hide Settled;
    hide OnPage;
    hide OnMessage;
    hide EndFetch;
    assert kept + [] == kept;
    match e
    case DeadlinePassed =>
    case Fetched(result) => OnPageBalances(kept, c, f, result);
    case Malformed => EndFetchBalances(kept, Spend(c, f, Interrupted), f);
    case Arrives(msg) => OnMessageBalances(kept, c, f, msg, max);
  }

  lemma {:induction false} OnEventBalances(kept: seq<Frame>, c: Conn, e: Event, max: nat)
    requires Balanced(kept, c) && (c.mode.Idle? ==> c.queued == [])
    ensures Balanced(kept + Gets(c, e, max), OnEvent(c, e, max))
  {
    hide Settled;
    hide OnEvent;
    assert kept + [] == kept;
    match c.mode
    case Closed(_) => ClosedStays(c, e, max);
    case Idle => IdleBalances(kept, c, e, max);
    case Fetching(f) => FetchingBalances(kept, c, f, e, max);
  }

  lemma {:induction false} FetchingBalances(kept: seq<Frame>, c: Conn, f: Fetch, e: Event, max: nat)
    requires Balanced(kept, c) && c.mode == Fetching(f)
    ensures Balanced(kept + Gets(c, e, max), OnEvent(c, e, max))
  {
    hide Settled;
    hide DuringFetch;
    hide EndFetch;
    if f.starting && e.DeadlinePassed? {
      var late := Spend(c, f, Forgotten);
      assert kept + [] == kept;
      EndFetchBalances(kept, late, f);
      DrainBalances(kept, EndFetch(late, f));
    } else {
      var c1, f1 := BeginFetch(c, f), f.(starting := false);
      DuringFetchBalances(kept, c1, f1, e, max);
      DrainBalances(kept + Gets(c, e, max), DuringFetch(c1, f1, e, max));
    }
  }

  lemma {:induction false} IdleBalances(kept: seq<Frame>, c: Conn, e: Event, max: nat)
    requires Balanced(kept, c) && c.mode.Idle? && c.queued == []
    ensures Balanced(kept + Gets(c, e, max), OnEvent(c, e, max))
  {
    var n, f := SummaryCount(c.sent), FrameOf(e);
    Owes(kept, n, [], f);
    assert Goods(c.queued) == [];
    assert [] + f == f;
    match e
    case Arrives(msg) =>
      assert f == [Good(msg)] + Goods(c.queued);
      HandleBalances(kept + f, c, msg);
      DrainBalances(kept + f, Handle(c, msg));
    case Malformed =>
      Pays(kept + f, n, Bad, []);
      SentOne(c.sent, Failure);
    case _ =>
      assert kept + [] == kept;
  }

  lemma {:induction false} IdleIsDone(script: seq<Event>, p: nat, max: nat)
    requires p <= |script|
    ensures Reached(script, p, max).mode.Idle? ==> Reached(script, p, max).queued == []
  {
    EveryRunOk(script, p, max);
  }

  /**
   At every point of every run the summaries sent answer, one each, the first frames that were
   not lost, and what is owed beyond them is exactly the message in hand and the queue.
   */
  lemma {:induction false} FramesAnswered(script: seq<Event>, p: nat, max: nat)
    requires p <= |script|
    ensures Balanced(Kept(script, p, max), Reached(script, p, max))
  {
    hide OnEvent;
    hide Gets;
    if p == 0 {
      assert Goods([]) == [];
    } else {
      FramesAnswered(script, p - 1, max);
      IdleIsDone(script, p - 1, max);
      OnEventBalances(Kept(script, p - 1, max), Reached(script, p - 1, max), script[p - 1], max);
    }
  }

  // ----- which frames are lost

  /** How many frames are unanswered when event `p` comes. */
  function Unanswered(script: seq<Event>, p: nat, max: nat): int
    requires p <= |script|
  {
    |Kept(script, p, max)| - SummaryCount(Reached(script, p, max).sent)
  }

  /**
   A frame is lost exactly when the connection still reads and the frame is malformed with another
   frame unanswered, or comes on top of more than `max` unanswered ones. RESET and GOODBYE never are.
   */
  lemma {:induction false} LostExactly(script: seq<Event>, p: nat, max: nat)
    requires p < |script|
    ensures Lost(script, p, max) <==>
      && !Reached(script, p, max).mode.Closed?
      && match script[p]
         case Malformed => 0 < Unanswered(script, p, max)
         case Arrives(msg) => !msg.Reset? && !msg.Goodbye? && max < Unanswered(script, p, max)
         case _ => false
  {
    FramesAnswered(script, p, max);
    IdleIsDone(script, p, max);
  }

  /** All frames among the first `p` events. */
  function FramesIn(script: seq<Event>, p: nat): seq<Frame>
    requires p <= |script|
  {
    if p == 0 then [] else FramesIn(script, p - 1) + FrameOf(script[p - 1])
  }

  /** No frame up to `p` is malformed, and but for RESET and GOODBYE none comes on top of more than `max` unanswered ones. */
  ghost predicate Paced(script: seq<Event>, p: nat, max: nat)
    requires p <= |script|
  {
    forall q :: 0 <= q < p ==>
      && !script[q].Malformed?
      && (script[q].Arrives? ==>
            script[q].msg.Reset? || script[q].msg.Goodbye? || Unanswered(script, q, max) <= max)
  }

  /** An idle connection has answered every frame it kept. */
  lemma {:induction false} IdleOwesNothing(script: seq<Event>, p: nat, max: nat)
    requires p <= |script| && Reached(script, p, max).mode.Idle?
    ensures SummaryCount(Reached(script, p, max).sent) == |Kept(script, p, max)|
  {
    hide OnEvent;
    FramesAnswered(script, p, max);
    IdleIsDone(script, p, max);
  }

  /** A client that paces itself loses nothing: while the connection reads, every frame that came is kept. */
  lemma {:induction false} PacedKeepsAll(script: seq<Event>, p: nat, max: nat)
    requires p <= |script| && Paced(script, p, max) && !Reached(script, p, max).mode.Closed?
    ensures Kept(script, p, max) == FramesIn(script, p)
    ensures Reached(script, p, max).mode.Idle? ==> SummaryCount(Reached(script, p, max).sent) == |FramesIn(script, p)|
  {
    hide OnEvent;
    if p > 0 {
      StillOpen(script, p - 1, max);
      LostExactly(script, p - 1, max);
      PacedKeepsAll(script, p - 1, max);
    }
    if Reached(script, p, max).mode.Idle? {
      IdleOwesNothing(script, p, max);
    }
  }

  lemma {:induction false} StillOpen(script: seq<Event>, p: nat, max: nat)
    requires p < |script| && !Reached(script, p + 1, max).mode.Closed?
    ensures !Reached(script, p, max).mode.Closed?
  {
  }

  // ----- how a connection closes

  /** RESET and GOODBYE are acted on as they come, so neither is ever in the queue. */
  ghost predicate Queueable(msgs: seq<Msg>) {
    forall i :: 0 <= i < |msgs| ==> !msgs[i].Goodbye? && !msgs[i].Reset?
  }

  lemma {:induction false} DrainCloses(c: Conn)
    requires Queueable(c.queued)
    ensures Queueable(Drain(c).queued)
    ensures Drain(c).mode.Closed? ==> Drain(c).mode == c.mode || Drain(c).mode == Closed(LogonRefused)
    decreases |c.queued|
  {
    if c.mode.Idle? && c.queued != [] {
      var rest := c.(queued := c.queued[1..]);
      RespondSends(rest, c.queued[0]);
      DrainCloses(Handle(rest, c.queued[0]));
    }
  }

  /** An event closes the connection for the reason it gives, or by a logon refused on the way. */
  lemma {:induction false} EventCloses(c: Conn, e: Event, max: nat)
    requires !c.mode.Closed? && Queueable(c.queued)
    ensures
      var m := OnEvent(c, e, max).mode;
      && Queueable(OnEvent(c, e, max).queued)
      && (m == Closed(SaidGoodbye) <==> c.mode.Idle? && e == Arrives(Goodbye))
      && (m.Closed? && m.closing.CutShort? <==> c.mode.Fetching? && e == Arrives(Goodbye))
      && (m.Closed? && m.closing.CutShort? ==> m.closing == CutShort(c.mode.fetch.msg, true))
      && (m.Closed? ==> !m.closing.ChannelClosed?)
  {
    match c.mode
    case Idle =>
      if e.Arrives? {
        RespondSends(c, e.msg);
        DrainCloses(Handle(c, e.msg));
      }
    case Fetching(f) =>
      if f.starting && e.DeadlinePassed? {
        DrainCloses(EndFetch(Spend(c, f, Forgotten), f));
      } else {
        DrainCloses(DuringFetch(BeginFetch(c, f), f.(starting := false), e, max));
      }
  }

  ghost predicate GoodbyeAt(script: seq<Event>, p: nat, max: nat, fetching: bool)
    requires p < |script|
  {
    && script[p] == Arrives(Goodbye)
    && if fetching then Reached(script, p, max).mode.Fetching? else Reached(script, p, max).mode.Idle?
  }

  /** The connection says goodbye exactly when GOODBYE finds it idle, and is cut short exactly when it finds it fetching. */
  lemma {:induction false} ClosesExactly(script: seq<Event>, p: nat, max: nat)
    requires p <= |script|
    ensures
      var m := Reached(script, p, max).mode;
      && (m == Closed(SaidGoodbye) <==> exists q :: 0 <= q < p && GoodbyeAt(script, q, max, false))
      && (m.Closed? && m.closing.CutShort? <==> exists q :: 0 <= q < p && GoodbyeAt(script, q, max, true))
      && (m.Closed? ==> !m.closing.ChannelClosed?)
      && (!m.Closed? ==> Queueable(Reached(script, p, max).queued))
  {
    hide OnEvent;
    if p > 0 {
      ClosesExactly(script, p - 1, max);
      var c := Reached(script, p - 1, max);
      if c.mode.Closed? {
        ClosedStays(c, script[p - 1], max);
      } else {
        EventCloses(c, script[p - 1], max);
        assert GoodbyeAt(script, p - 1, max, false) <==> c.mode.Idle? && script[p - 1] == Arrives(Goodbye);
        assert GoodbyeAt(script, p - 1, max, true) <==> c.mode.Fetching? && script[p - 1] == Arrives(Goodbye);
      }
    }
  }

  // ----- whole connections

  /**
   A connection is cut short exactly when GOODBYE or the end of the channel comes during a fetch, says goodbye exactly
   when GOODBYE finds it idle, and ends with the channel exactly when that finds it idle.
   */
  lemma {:induction false} CutExactly(script: seq<Event>, max: nat)
    ensures
      var m := Whole(script, max).mode;
      && m.Closed?
      && (m.closing.CutShort? <==>
            Reached(script, |script|, max).mode.Fetching? || exists q :: 0 <= q < |script| && GoodbyeAt(script, q, max, true))
      && (m.closing.SaidGoodbye? <==> exists q :: 0 <= q < |script| && GoodbyeAt(script, q, max, false))
      && (m.closing.ChannelClosed? <==> Reached(script, |script|, max).mode.Idle?)
  {
    ClosesExactly(script, |script|, max);
  }

  /** Over a whole connection every frame kept is answered in order, but for those its closing names. */
  lemma {:induction false} WholeAnswered(script: seq<Event>, max: nat)
    ensures Balanced(Kept(script, |script|, max), Whole(script, max))
    ensures Whole(script, max).mode == Closed(ChannelClosed) ==> Owed(Whole(script, max)) == []
  {
    hide OnEvent;
    hide Balanced;
    FramesAnswered(script, |script|, max);
    IdleIsDone(script, |script|, max);
    ClosesExactly(script, |script|, max);
    FinishBalances(Kept(script, |script|, max), Reached(script, |script|, max));
  }

  lemma {:induction false} FinishBalances(kept: seq<Frame>, c: Conn)
    requires Balanced(kept, c)
    ensures Balanced(kept, Finish(c))
  {
    hide Settled;
    if c.mode.Fetching? {
      assert Owed(c) + [] == Owed(c);
    }
  }

  /** A malformed frame during the first fetch is lost: five frames came, four are kept, and four summaries answer them. */
  lemma {:induction false} MalformedIsLost(max: nat)
    ensures
      var script := PULLING + [Malformed];
      && Lost(script, 4, max) && |Kept(script, 5, max)| == 4 && |FramesIn(script, 5)| == 5
      && SummaryCount(Whole(script, max).sent) == 4
  {
    var script := PULLING + [Malformed];
    PullingFetches(script, max);
    FramesAnswered(script, 4, max);
    SentThree();
    assert Owed(FETCHING) == [Good(PULL_ALL)] + Goods([]);
    assert FramesIn(script, 1) == [Good(Hello)];
    assert |FramesIn(script, 2)| == 2;
    assert |FramesIn(script, 3)| == 3;
    assert |FramesIn(script, 4)| == 4;
    IdleOwesNothing(script, 5, max);
  }

  lemma {:induction false} SentThree()
    ensures SummaryCount(FETCHING.sent) == 3
  {
    var m := Success(None);
    SentOne([], m);
    SentOne([m], m);
    SentOne([m, m], m);
    assert [] + [m] == [m] && [m] + [m] == [m, m] && [m, m] + [m] == [m, m, m];
  }

  lemma {:induction false} GoodbyeLeaves(c: Conn, f: Fetch, max: nat)
    requires c.mode == Fetching(f)
    ensures
      var c' := OnEvent(c, Arrives(Goodbye), max);
      c'.mode == Closed(CutShort(f.msg, true)) && c'.sent == c.sent && c'.queued == c.queued
  {
  }

  /** A client that says GOODBYE during its first fetch gets no answer to its PULL. */
  lemma {:induction false} GoodbyeCutsPull(max: nat)
    ensures
      var c := Whole(PULLING + [Arrives(Goodbye)], max);
      && c.mode == Closed(CutShort(PULL_ALL, true)) && c.sent == FETCHING.sent
      && Owed(c) == [Good(PULL_ALL), Good(Goodbye)]
  {
    var script := PULLING + [Arrives(Goodbye)];
    hide OnEvent;
    PullingFetches(script, max);
    GoodbyeLeaves(FETCHING, FETCHING.mode.fetch, max);
    assert Reached(script, 5, max) == OnEvent(FETCHING, script[4], max);
    assert Goods([]) == [];
  }
}
