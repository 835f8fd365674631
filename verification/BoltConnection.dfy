/**
 The Bolt connection loop as it runs: it takes events off the channel, changes its state,
 session, queue and output in place, and waits inside a row message while a page is being
 fetched. It is proved to go through exactly the states of the machine.
 */
module BoltConnection {
  import opened Base
  import opened BoltMachine
  import BoltRuns

  /** How waiting for a page ended. */
  datatype Awaited = Completed(result: FetchResult) | AwaitReset | AwaitLeft(goodbye: bool) | AwaitFailed

  /** How giving out rows ended. */
  datatype Consumed = AllGiven | ConsumeReset | ConsumeLeft(goodbye: bool) | ConsumeFailed

  /** A new page in the buffer, or the end of the row message. */
  datatype PageTurn = NewPage | Turned(outcome: Consumed)

  /** What a RESET during a fetch leaves to do once it is answered. */
  ghost function AfterReset(c: Conn): Conn { Clear(c).(state := Ready) }

  class Connection {
    const script: seq<Event>
    const max: nat
    var pos: nat
    var state: BoltState
    var s: Session
    var queued: seq<Msg>
    var sent: seq<ServerMsg>
    ghost var trace: Trace

    constructor (script: seq<Event>, max: nat)
      ensures this.script == script && this.max == max && pos == 0 && In(Idle) == START
    {
      this.script, this.max, pos := script, max, 0;
      state, s, queued, sent, trace := Negotiation, Session(false, None), [], [], START.trace;
    }

    ghost function In(mode: Mode): Conn
      reads this
    {
      Conn(state, s, mode, queued, sent, trace)
    }

    /** After the events taken so far the machine is at `c`. */
    ghost predicate At(c: Conn)
      reads this
    {
      pos <= |script| && Reached(script, pos, max) == c
    }

    /** The client left while `f` was being fetched: by GOODBYE, or by closing the channel. */
    ghost predicate LeftDuring(f: Fetch, goodbye: bool)
      reads this
    {
      if goodbye then At(In(Closed(CutShort(f.msg, true))))
      else pos == |script| && At(In(Fetching(f)))
    }

    /** What is left to do goes down with every event taken and up with every message queued. */
    function Slack(): int
      reads this
    {
      |queued| - pos
    }

    // ----- messages that give out no rows

    /** `clear_pending_result`. */
    method ClearPending()
      modifies `s, `trace
      ensures In(Idle) == Clear(old(In(Idle)))
    {
      trace := Clear(In(Idle)).trace;
      s := s.(pending := None);
    }

    method Reply(m: ServerMsg)
      modifies `sent
      ensures In(Idle) == Send(old(In(Idle)), m)
    {
      sent := sent + [m];
    }

    /** A message to a connection that has failed. */
    method RespondFailed(msg: Msg) returns (closing: Option<Closing>)
      requires state.Failed?
      modifies `state, `s, `sent, `trace
      ensures In(if closing.Some? then Closed(closing.value) else Idle) == Respond(old(In(Idle)), msg)
    {
      closing := None;
      if msg.Reset? {
        ClearPending();
        Reply(Success(None));
        state := if s.authenticated then Ready else Authentication;
      } else if msg.Goodbye? {
        ClearPending();
        closing := Some(SaidGoodbye);
      } else {
        Reply(Ignored);
      }
    }

    method FailWith()
      modifies `state, `sent
      ensures In(Idle) == Send(old(In(Idle)), Failure).(state := Failed)
    {
      Reply(Failure);
      state := Failed;
    }

    method Accept(next: BoltState)
      modifies `state, `sent
      ensures In(Idle) == Send(old(In(Idle)), Success(None)).(state := next)
    {
      Reply(Success(None));
      state := next;
    }

    /** A message to a ready connection. */
    method RespondReady(msg: Msg)
      requires state.Ready? && !msg.Goodbye?
      modifies `state, `s, `sent, `trace
      ensures In(Idle) == Respond(old(In(Idle)), msg)
    {
      if msg.Reset? {
        ClearPending();
        Accept(Ready);
      } else if msg.Logoff? {
        ClearPending();
        s := Session(false, None);
        Accept(Authentication);
      } else if msg.Run? && msg.prepares {
        s := s.(pending := Some(Pending(false, [], None)));
        trace := NewStatement(trace);
        Accept(Streaming);
      } else if (msg.Route? && msg.succeeds) || msg.Telemetry? {
        Reply(Success(None));
      } else {
        FailWith();
      }
    }

    /** A message that gives out no rows. */
    method RespondTo(msg: Msg) returns (closing: Option<Closing>)
      requires !GivesRows(state, msg)
      modifies `state, `s, `sent, `trace
      ensures In(if closing.Some? then Closed(closing.value) else Idle) == Respond(old(In(Idle)), msg)
    {
      closing := None;
      if state.Failed? {
        closing := RespondFailed(msg);
      } else if msg.Goodbye? {
        ClearPending();
        closing := Some(SaidGoodbye);
      } else if state.Ready? {
        RespondReady(msg);
      } else if state.Negotiation? && msg.Hello? {
        Accept(Authentication);
      } else if state.Authentication? && msg.Logon? {
        if msg.accepted {
          s := s.(authenticated := true);
          Accept(Ready);
        } else {
          Reply(Failure);
          closing := Some(LogonRefused);
        }
      } else if state.Streaming? && msg.Reset? {
        ClearPending();
        Accept(Ready);
      } else {
        FailWith();
      }
    }

    // ----- waiting for a page

    /** Answers every queued message with IGNORED, oldest first. */
    method IgnoreQueued()
      modifies `queued, `sent
      ensures queued == [] && sent == old(sent) + Ignoreds(|old(queued)|)
    {
      ghost var n := 0;
      while queued != []
        invariant n + |queued| == |old(queued)| && sent == old(sent) + Ignoreds(n)
        decreases |queued|
      {
        queued := queued[1..];
        sent := sent + [Ignored];
        n := n + 1;
        assert Ignoreds(n) == Ignoreds(n - 1) + [Ignored];
      }
    }

    /** Answers a RESET that came during the fetch. */
    method AnswerReset(ghost f: Fetch)
      modifies `queued, `sent, `trace
      ensures AfterReset(In(Idle)) == ResetFetch(old(In(Fetching(f))), f) && queued == []
    {
      trace := Log(In(Fetching(f)), f.msg, f.given, Some(Ignored)).trace;
      ghost var n := |queued|;
      sent := sent + [Ignored];
      IgnoreQueued();
      assert [Ignored] + Ignoreds(n) == Ignoreds(1 + n);
      assert sent == old(sent) + Ignoreds(1 + n);
      sent := sent + [Success(None)];
    }

    /** The fetch is over, and its cursor with it. */
    ghost method SpendCursor(f: Fetch, fate: Fate)
      modifies `trace
      ensures In(Fetching(f)) == Spend(old(In(Fetching(f))), f, fate)
    {
      trace := Note(trace, fate, f.cursor);
    }

    /** A message during the fetch; None when the wait goes on. */
    method TakeMessage(ghost f: Fetch, msg: Msg) returns (done: Option<Awaited>)
      requires At(Drain(OnMessage(In(Fetching(f)), f, msg, max)))
      modifies `queued, `sent, `trace
      ensures done.None? ==> At(In(Fetching(f)))
      ensures done.Some? ==> !done.value.Completed? && Waited(f, done.value)
      ensures |queued| <= |old(queued)| + 1
    {
      done := None;
      if msg.Reset? {
        SpendCursor(f, Interrupted);
        AnswerReset(f);
        done := Some(AwaitReset);
      } else if msg.Goodbye? {
        SpendCursor(f, Interrupted);
        trace := Leave(In(Fetching(f)), f, true).trace;
        done := Some(AwaitLeft(true));
      } else if |queued| >= max {
        SpendCursor(f, Interrupted);
        done := Some(AwaitFailed);
      } else {
        queued := queued + [msg];
      }
    }

    /** Where the machine is when a wait has ended, before the row message goes on. */
    ghost predicate Waited(f: Fetch, out: Awaited)
      reads this
    {
      match out
      case Completed(result) => !f.starting && At(Drain(OnPage(In(Fetching(f)), f, result)))
      case AwaitReset => At(AfterReset(In(Idle))) && queued == []
      case AwaitLeft(goodbye) => LeftDuring(f, goodbye)
      case AwaitFailed => At(Drain(EndFetch(In(Fetching(f)), f)))
    }

    /** One event while a page is awaited. */
    method TakeEvent(ghost f: Fetch) returns (done: Option<Awaited>, ghost f': Fetch)
      requires At(In(Fetching(f))) && pos < |script| && !(f.starting && script[pos].DeadlinePassed?)
      modifies `pos, `queued, `sent, `trace
      ensures f' == f.(starting := false) && pos == old(pos) + 1 && Slack() <= old(Slack())
      ensures if done.None? then At(In(Fetching(f'))) else Waited(f', done.value)
    {
      hide OnPage;
      hide OnMessage;
      hide EndFetch;
      var event := script[pos];
      f' := f.(starting := false);
      pos := pos + 1;
      assert At(Drain(DuringFetch(In(Fetching(f')), f', event, max)));
      done := None;
      match event {
        case DeadlinePassed =>
        case Fetched(result) => done := Some(Completed(result));
        case Malformed =>
          SpendCursor(f', Interrupted);
          done := Some(AwaitFailed);
        case Arrives(msg) => done := TakeMessage(f', msg);
      }
    }

    /** `await_bolt_page`: waits for the fetch to complete while taking messages off the channel. */
    method AwaitPage(ghost f: Fetch) returns (out: Awaited, ghost f': Fetch)
      requires At(In(Fetching(f))) && !(f.starting && pos < |script| && script[pos].DeadlinePassed?)
      modifies `pos, `queued, `sent, `trace
      ensures f'.(starting := f.starting) == f && Waited(f', out)
      ensures old(pos) <= pos && Slack() <= old(Slack()) && (out.Completed? ==> old(pos) < pos)
    {
      f' := f;
      while pos < |script|
        invariant f'.(starting := f.starting) == f && At(In(Fetching(f')))
        invariant old(pos) <= pos && Slack() <= old(Slack())
        invariant !(f'.starting && pos < |script| && script[pos].DeadlinePassed?)
        decreases |script| - pos
      {
        var done;
        done, f' := TakeEvent(f');
        if done.Some? {
          return done.value, f';
        }
      }
      out := AwaitLeft(false);
    }

    /** Where the machine is when rows have been given out, before the row message is answered. */
    ghost predicate Gave(msg: Msg, given: seq<Row>, out: Consumed)
      reads this
    {
      match out
      case AllGiven => At(Drain(Summarize(In(Idle), msg, given)))
      case ConsumeReset => At(AfterReset(In(Idle))) && queued == []
      case ConsumeLeft(goodbye) => exists f: Fetch :: f.msg == msg && LeftDuring(f, goodbye)
      case ConsumeFailed => At(Drain(FailRows(In(Idle), msg, given)))
    }

    /** Takes in what a completed fetch brought. */
    method TakeResult(ghost f: Fetch, result: FetchResult) returns (turn: PageTurn)
      requires !f.starting && At(Drain(OnPage(In(Fetching(f)), f, result))) && s.pending.Some?
      modifies `s, `trace
      ensures s.pending.Some? && (turn.NewPage? || turn == Turned(ConsumeFailed))
      ensures turn.NewPage? ==> At(Drain(Give(In(Idle), f.msg, f.given, f.left)))
      ensures turn.Turned? ==> Gave(f.msg, f.given, turn.outcome)
    {
      SpendCursor(f, FetchedWith);
      match result {
        case Page(rows, next, true) =>
          trace := TakePage(In(Fetching(f)), rows, next).trace;
          var p := s.pending.value;
          s := s.(pending := Some(p.(rows := p.rows + rows, next := next)));
          turn := NewPage;
        case Page(_, next, false) =>
          trace := RefusePage(In(Fetching(f)), next).trace;
          turn := Turned(ConsumeFailed);
        case PageError => turn := Turned(ConsumeFailed);
      }
    }

    /** Takes the cursor out of the pending result and fetches with it, unless the deadline has passed. */
    method FetchPage(msg: Msg, ghost given: seq<Row>, ghost left: nat) returns (turn: PageTurn)
      requires s.pending.Some? && At(Drain(StartFetch(In(Idle), msg, given, left, s.pending.value)))
      modifies `pos, `s, `queued, `sent, `trace
      ensures turn.NewPage? ==> s.pending.Some? && old(pos) < pos && At(Drain(Give(In(Idle), msg, given, left)))
      ensures turn.Turned? ==> !turn.outcome.AllGiven? && Gave(msg, given, turn.outcome)
      ensures old(pos) <= pos && Slack() <= old(Slack())
    {
      hide Give;
      hide FailRows;
      var cursor := CursorOf(s.pending.value);
      s := s.(pending := Some(Taken(s.pending.value)));
      ghost var f := Fetch(msg, given, left, cursor, true);
      if pos < |script| && script[pos].DeadlinePassed? {
        SpendCursor(f, Forgotten);
        pos := pos + 1;
        return Turned(ConsumeFailed);
      }
      var out;
      out, f := AwaitPage(f);
      match out {
        case Completed(result) => turn := TakeResult(f, result);
        case AwaitReset => turn := Turned(ConsumeReset);
        case AwaitLeft(goodbye) => turn := Turned(ConsumeLeft(goodbye));
        case AwaitFailed => turn := Turned(ConsumeFailed);
      }
    }

    /** `consume_bolt_records`: gives out up to `count` rows, fetching pages as needed. */
    method ConsumeRecords(msg: Msg, count: Option<nat>) returns (out: Consumed, ghost given: seq<Row>)
      requires s.pending.Some? && At(Drain(Give(In(Idle), msg, [], Limit(count))))
      modifies `pos, `s, `queued, `sent, `trace
      ensures Gave(msg, given, out)
      ensures out.AllGiven? ==> s.pending.Some?
      ensures old(pos) <= pos && Slack() <= old(Slack())
    {
      hide Reached;
      hide Drain;
      hide StartFetch;
      hide Summarize;
      hide FailRows;
      var remaining := Limit(count);
      given := [];
      while remaining > 0
        invariant s.pending.Some? && At(Drain(Give(In(Idle), msg, given, remaining)))
        invariant old(pos) <= pos && Slack() <= old(Slack())
        decreases |script| - pos, remaining
      {
        var p := s.pending.value;
        if p.rows != [] {
          s := s.(pending := Some(p.(rows := p.rows[1..])));
          if msg.Pull? {
            if !p.rows[0].sendable {
              out := ConsumeFailed;
              return;
            }
            Reply(Record(p.rows[0]));
          }
          given := given + [p.rows[0]];
          remaining := remaining - 1;
        } else if p.started && p.next.None? {
          break;
        } else {
          var turn := FetchPage(msg, given, remaining);
          if turn.Turned? {
            out := turn.outcome;
            return;
          }
        }
      }
      out := AllGiven;
    }

    // ----- the loop

    /** PULL and DISCARD while streaming. */
    method GiveRows(msg: Msg) returns (closing: Option<Closing>)
      requires GivesRows(state, msg) && At(Drain(Handle(In(Idle), msg)))
      modifies `pos, `state, `s, `queued, `sent, `trace
      ensures closing.None? ==> At(Drain(In(Idle)))
      ensures closing.Some? ==> Ended(closing.value)
      ensures old(pos) <= pos && Slack() <= old(Slack())
    {
      hide Reached;
      hide Give;
      closing := None;
      var count := CountOf(msg);
      if count.Err? || !s.authenticated || s.pending.None? {
        FailWith();
        return;
      }
      var out;
      ghost var given;
      out, given := ConsumeRecords(msg, count.value);
      match out {
        case AllGiven =>
          trace := Log(In(Idle), msg, given, Some(Success(Some(HasMore(LeftOf(In(Idle))))))).trace;
          var more := s.pending.value.rows != [] || s.pending.value.next.Some?;
          Reply(Success(Some(more)));
          if !more {
            ClearPending();
            state := Ready;
          }
        case ConsumeFailed =>
          trace := Log(In(Idle), msg, given, Some(Failure)).trace;
          Reply(Failure);
          ClearPending();
          state := Failed;
        case ConsumeReset =>
          ClearPending();
          state := Ready;
        case ConsumeLeft(goodbye) => closing := Some(CutShort(msg, goodbye));
      }
    }

    /** The connection has closed, or the channel has. */
    ghost predicate Ended(closing: Closing)
      reads this
    {
      match closing
      case ChannelClosed => pos == |script| && At(In(Idle))
      case CutShort(msg, false) => exists f: Fetch :: f.msg == msg && LeftDuring(f, false)
      case _ => At(In(Closed(closing)))
    }

    /** One turn of the loop with message `msg`. */
    method HandleMessage(msg: Msg) returns (closing: Option<Closing>)
      requires At(Drain(Handle(In(Idle), msg)))
      modifies `pos, `state, `s, `queued, `sent, `trace
      ensures closing.None? ==> At(Drain(In(Idle)))
      ensures closing.Some? ==> Ended(closing.value)
      ensures old(pos) <= pos && Slack() <= old(Slack())
    {
      if state.Streaming? && (msg.Pull? || msg.Discard?) {
        closing := GiveRows(msg);
      } else {
        closing := RespondTo(msg);
      }
    }

    /** One round of the loop: the next message, from the queue first, or an event that brings none. */
    method TakeStep() returns (closing: Option<Closing>)
      requires At(Drain(In(Idle))) && (queued != [] || pos < |script|)
      modifies `pos, `state, `s, `queued, `sent, `trace
      ensures closing.None? ==> At(Drain(In(Idle)))
      ensures closing.Some? ==> Ended(closing.value)
      ensures old(pos) <= pos && (closing.None? ==> Slack() < old(Slack()))
    {
      closing := None;
      if queued != [] {
        var msg := queued[0];
        queued := queued[1..];
        closing := HandleMessage(msg);
        return;
      }
      var event := script[pos];
      pos := pos + 1;
      match event {
        case Arrives(msg) => closing := HandleMessage(msg);
        case Malformed => FailWith();
        case _ =>
      }
    }

    /** The connection loop, from the first event to the close. */
    method Serve() returns (closing: Closing)
      requires pos == 0 && In(Idle) == START
      modifies this
      ensures Ended(closing)
    {
      while queued != [] || pos < |script|
        invariant At(Drain(In(Idle)))
        decreases |script| + Slack()
      {
        var closes := TakeStep();
        if closes.Some? {
          return closes.value;
        }
      }
      closing := ChannelClosed;
    }
  }

  /** The whole connection sends what the machine sends and closes as it does. */
  method RunConnection(script: seq<Event>, max: nat) returns (sent: seq<ServerMsg>, closing: Closing)
    ensures sent == Whole(script, max).sent && Whole(script, max).mode == Closed(closing)
  {
    hide OnEvent;
    var connection := new Connection(script, max);
    closing := connection.Serve();
    ghost var c := Reached(script, connection.pos, max);
    if c.mode.Closed? {
      BoltRuns.ClosedForGood(script, connection.pos, |script|, max);
    }
    sent := connection.sent;
    connection.ClearPending();
  }
}
