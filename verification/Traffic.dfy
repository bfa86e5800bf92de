/** Many connections at once: the step system of the event loop with the site behind it. Each
    handler runs to its end, so a request is routed and answered within the step of its read. */
module Traffic {
  import EventLoop
  import AuthService
  import Site
  import opened Text
  import opened RequestAssembly

  /** A completion that hands over no request; a read that completes the request `r`; or time
      that passes at the session store. */
  datatype Happening =
    | Net(e: EventLoop.Event)
    | Dispatch(c: nat, k: nat, r: CutRequest, given: Site.Given)
    | Pass(d: nat)

  datatype Whole = Whole(net: EventLoop.World, service: AuthService.State)

  const START := Whole(EventLoop.START, AuthService.START)

  /** The reply to a request, given the state of the service when it is handed over. */
  function ReplyTo(s: AuthService.State, r: CutRequest, given: Site.Given): EventLoop.Response
    requires Flat(r.uri) != ""
  {
    Site.Handled(s, Flat(r.uri), AllHeaders(r), given).1
  }

  function Completed(s: AuthService.State, h: Happening): EventLoop.Event
    requires h.Dispatch? && Flat(h.r.uri) != ""
  {
    EventLoop.ReadDone(h.c, h.k, EventLoop.Success, EventLoop.Complete(ReplyTo(s, h.r, h.given)))
  }

  predicate Possible(w: Whole, h: Happening) {
    match h
    case Net(e) =>
      && EventLoop.Enabled(w.net, e)
      && !(e.ReadDone? && e.result == EventLoop.Success && e.parse.Complete?)
    case Dispatch(_, _, r, given) =>
      && Site.Servable(Site.Request(r, given))
      && EventLoop.Enabled(w.net, Completed(w.service, h))
    case Pass(_) => true
  }

  /** What one happening does to the connections: at most one event. */
  function NetEvents(w: Whole, h: Happening): seq<EventLoop.Event>
    requires Possible(w, h)
  {
    match h
    case Net(e) => [e]
    case Dispatch(_, _, _, _) => [Completed(w.service, h)]
    case Pass(_) => []
  }

  /** What it asks of the service. */
  function Asks(w: Whole, h: Happening): seq<AuthService.Event>
    requires Possible(w, h)
  {
    match h
    case Net(_) => []
    case Dispatch(_, _, r, given) => Site.Asks(Site.Request(r, given))
    case Pass(d) => [AuthService.Tick(d)]
  }

  function Next(w: Whole, h: Happening): Whole
    requires Possible(w, h)
  {
    match h
    case Net(e) => w.(net := EventLoop.Step(w.net, e))
    case Dispatch(_, _, r, given) =>
      Whole(EventLoop.Step(w.net, Completed(w.service, h)),
            Site.Handled(w.service, Flat(r.uri), AllHeaders(r), given).0)
    case Pass(d) => w.(service := AuthService.Do(w.service, AuthService.Tick(d)).0)
  }

  predicate IsRun(hs: seq<Happening>)
    decreases |hs|, 0
  {
    hs == [] || (IsRun(hs[..|hs| - 1]) && Possible(After(hs[..|hs| - 1]), hs[|hs| - 1]))
  }

  function After(hs: seq<Happening>): Whole
    requires IsRun(hs)
    decreases |hs|, 1
  {
    if hs == [] then START else Next(After(hs[..|hs| - 1]), hs[|hs| - 1])
  }

  /** The events of a run at the connections, and at the service. */
  function NetRun(hs: seq<Happening>): seq<EventLoop.Event>
    requires IsRun(hs)
  {
    if hs == [] then [] else NetRun(hs[..|hs| - 1]) + NetEvents(After(hs[..|hs| - 1]), hs[|hs| - 1])
  }

  function ServiceRun(hs: seq<Happening>): seq<AuthService.Event>
    requires IsRun(hs)
  {
    if hs == [] then [] else ServiceRun(hs[..|hs| - 1]) + Asks(After(hs[..|hs| - 1]), hs[|hs| - 1])
  }

  lemma NetStep(es: seq<EventLoop.Event>, w: Whole, h: Happening)
    requires EventLoop.IsRun(EventLoop.START, es) && w.net == EventLoop.After(EventLoop.START, es)
    requires Possible(w, h)
    ensures EventLoop.IsRun(EventLoop.START, es + NetEvents(w, h))
    ensures EventLoop.After(EventLoop.START, es + NetEvents(w, h)) == Next(w, h).net
  {
    hide EventLoop.Step, EventLoop.Enabled, Site.Handled;
    if h.Pass? {
      assert es + NetEvents(w, h) == es;
    } else {
      assert (es + NetEvents(w, h))[..|es|] == es;
    }
  }

  lemma ServiceStep(es: seq<AuthService.Event>, w: Whole, h: Happening)
    requires w.service == AuthService.After(es) && Possible(w, h)
    ensures AuthService.After(es + Asks(w, h)) == Next(w, h).service
  {
    hide EventLoop.Step, Site.Handled, AuthService.Do, AuthService.After, Site.Asks;
    match h
    case Net(_) =>
      assert es + Asks(w, h) == es;
    case Dispatch(_, _, r, given) =>
      Site.AfterAsks(es, Site.Request(r, given));
    case Pass(d) =>
      AuthService.AfterOne(es, AuthService.Tick(d));
  }

  /** Every run is a run of the event loop and a run of the service. */
  lemma {:induction false} RunsOfBoth(hs: seq<Happening>)
    requires IsRun(hs)
    ensures EventLoop.IsRun(EventLoop.START, NetRun(hs))
    ensures EventLoop.After(EventLoop.START, NetRun(hs)) == After(hs).net
    ensures AuthService.After(ServiceRun(hs)) == After(hs).service
  {
    hide Next, Possible, NetEvents, Asks, AuthService.Do;
    if hs != [] {
      var init, h := hs[..|hs| - 1], hs[|hs| - 1];
      RunsOfBoth(init);
      NetStep(NetRun(init), After(init), h);
      ServiceStep(ServiceRun(init), After(init), h);
    }
  }

  lemma {:induction false} PrefixRuns(hs: seq<Happening>, i: nat)
    requires IsRun(hs) && i <= |hs|
    ensures IsRun(hs[..i])
    decreases |hs|
  {
    if i < |hs| {
      PrefixRuns(hs[..|hs| - 1], i);
      assert hs[..|hs| - 1][..i] == hs[..i];
    } else {
      assert hs[..i] == hs;
    }
  }

  /** The response that happening `i` of a run starts on connection `c`: the reply of the site
      to the request it hands over, in the state the service is in then, or the reply to
      malformed bytes. */
  function Started(hs: seq<Happening>, i: nat, c: nat): Option<EventLoop.Response>
    requires i < |hs| && IsRun(hs[..i + 1])
  {
    PrefixRuns(hs[..i + 1], i);
    assert hs[..i + 1][..i] == hs[..i];
    match hs[i]
    case Dispatch(c', _, r, given) =>
      if c' == c then Some(ReplyTo(AuthService.After(ServiceRun(hs[..i])), r, given)) else None
    case Net(e) => EventLoop.Answered(e, c)
    case Pass(_) => None
  }

  predicate StartsAt(hs: seq<Happening>, j: nat, c: nat, b: Option<EventLoop.Response>) {
    j < |hs| && IsRun(hs[..j + 1]) && Started(hs, j, c) == b
  }

  function Sole(j: nat, i: nat, b: Option<EventLoop.Response>): Option<EventLoop.Response> {
    if j == i then b else None
  }

  /** No happening of the run but `i` starts a response on `c`, and that one starts `b`. */
  ghost predicate OnlyStart(hs: seq<Happening>, i: nat, c: nat, b: Option<EventLoop.Response>) {
    && (b.Some? ==> i < |hs|)
    && forall j: nat {:trigger Sole(j, i, b)} :: j < |hs| ==> StartsAt(hs, j, c, Sole(j, i, b))
  }

  lemma LastAnswered(hs: seq<Happening>, c: nat)
    requires hs != [] && IsRun(hs)
    ensures
      var es := NetEvents(After(hs[..|hs| - 1]), hs[|hs| - 1]);
      && IsRun(hs[..|hs|]) && |es| <= 1
      && Started(hs, |hs| - 1, c) == if es == [] then None else EventLoop.Answered(es[0], c)
  {
    hide ReplyTo, AuthService.After, Site.Handled, Next, EventLoop.Enabled;
    assert hs[..|hs|] == hs;
    RunsOfBoth(hs[..|hs| - 1]);
  }

  lemma LastStarted(hs: seq<Happening>, c: nat)
    requires hs != [] && IsRun(hs)
    ensures
      var init, h := hs[..|hs| - 1], hs[|hs| - 1];
      var es, before := NetEvents(After(init), h), NetRun(init);
      && IsRun(hs[..|hs|]) && NetRun(hs) == before + es
      && EventLoop.Writes(NetRun(hs), c) ==
           EventLoop.Writes(before, c) + (if Started(hs, |hs| - 1, c).Some? then 1 else 0)
      && EventLoop.FirstAnswer(NetRun(hs), c) ==
           if EventLoop.FirstAnswer(before, c).Some? then EventLoop.FirstAnswer(before, c)
           else Started(hs, |hs| - 1, c)
  {
    var init, h := hs[..|hs| - 1], hs[|hs| - 1];
    var es, before := NetEvents(After(init), h), NetRun(init);
    hide EventLoop.Writes, EventLoop.FirstAnswer, EventLoop.Answered, Started, NetEvents, After;
    assert hs[..|hs|] == hs;
    LastAnswered(hs, c);
    if es == [] {
      assert before + es == before;
    } else {
      OneMore(before, es[0], c);
    }
  }

  lemma OneMore(es: seq<EventLoop.Event>, e: EventLoop.Event, c: nat)
    ensures EventLoop.Writes(es + [e], c) == EventLoop.Writes(es, c) + (if EventLoop.Answered(e, c).Some? then 1 else 0)
    ensures EventLoop.FirstAnswer(es + [e], c) ==
              if EventLoop.FirstAnswer(es, c).Some? then EventLoop.FirstAnswer(es, c) else EventLoop.Answered(e, c)
  {
    assert (es + [e])[..|es|] == es;
  }

  lemma EarlierStarted(hs: seq<Happening>, j: nat, c: nat, b: Option<EventLoop.Response>)
    requires IsRun(hs) && j < |hs| - 1 && StartsAt(hs[..|hs| - 1], j, c, b)
    ensures StartsAt(hs, j, c, b)
  {
    hide IsRun, After, ServiceRun, ReplyTo, EventLoop.Answered;
    var init := hs[..|hs| - 1];
    PrefixRuns(hs, j + 1);
    assert init[..j + 1] == hs[..j + 1] && init[..j] == hs[..j];
  }

  /** The first response counted at the event loop is the only one that any happening starts. */
  lemma {:induction false} StartedBy(hs: seq<Happening>, c: nat) returns (i: nat)
    requires IsRun(hs) && EventLoop.Writes(NetRun(hs), c) <= 1
    ensures EventLoop.Writes(NetRun(hs), c) == 0 <==> EventLoop.FirstAnswer(NetRun(hs), c) == None
    ensures OnlyStart(hs, i, c, EventLoop.FirstAnswer(NetRun(hs), c))
  {
    hide Started, NetRun, IsRun, After, EventLoop.Writes, EventLoop.FirstAnswer;
    if hs == [] {
      NothingRun(c);
      i := 0;
    } else {
      var init := hs[..|hs| - 1];
      RunInit(hs);
      LastStarted(hs, c);
      var before := StartedBy(init, c);
      var first := EventLoop.FirstAnswer(NetRun(hs), c);
      i := if Started(hs, |hs| - 1, c).Some? then |hs| - 1 else before;
      forall j: nat | j < |hs| ensures StartsAt(hs, j, c, Sole(j, i, first)) {
        if j < |hs| - 1 {
          assert Sole(j, before, EventLoop.FirstAnswer(NetRun(init), c)) == Sole(j, i, first);
          EarlierStarted(hs, j, c, Sole(j, i, first));
        }
      }
    }
  }

  lemma NothingRun(c: nat)
    ensures IsRun([]) && NetRun([]) == [] && EventLoop.Writes([], c) == 0 && EventLoop.FirstAnswer([], c) == None
  {
  }

  lemma RunInit(hs: seq<Happening>)
    requires hs != [] && IsRun(hs)
    ensures IsRun(hs[..|hs| - 1])
  {
  }

  /** However connections interleave: when a write ends, the buffers it sent are those of the
      one response that was ever started on its connection, and that is the site's reply to the
      connection's own request, in the state the service was in when it was handed over. */
  lemma OwnReply(hs: seq<Happening>, e: EventLoop.Event) returns (i: nat)
    requires IsRun(hs) && e.WriteDone? && EventLoop.Enabled(After(hs).net, e)
    ensures OnlyStart(hs, i, e.c, Some(After(hs).net.conns[e.c].pending[e.k].buffers))
  {
    RunsOfBoth(hs);
    EventLoop.WriteSendsAnswer(NetRun(hs), e);
    i := StartedBy(hs, e.c);
  }

  lemma Extend(hs: seq<Happening>, h: Happening)
    requires IsRun(hs) && Possible(After(hs), h)
    ensures IsRun(hs + [h]) && After(hs + [h]) == Next(After(hs), h)
  {
    hide Possible, Next;
    assert (hs + [h])[..|hs|] == hs;
  }

  /** Until the signal, whoever connects and sends a request, however the others interleave, is
      sent the site's reply to it, in the state the service is in then. */
  lemma ClientServed(hs: seq<Happening>, r: CutRequest, given: Site.Given)
    requires IsRun(hs) && EventLoop.Signal !in NetRun(hs) && Site.Servable(Site.Request(r, given))
    ensures
      var n := |After(hs).net.conns|;
      var joined := hs + [Net(EventLoop.Accept(EventLoop.Success))];
      var asked := joined + [Dispatch(n, 0, r, given)];
      && IsRun(asked) && |After(asked).net.conns| > n
      && After(asked).net.conns[n].pending ==
           [EventLoop.Writing(false, ReplyTo(AuthService.After(ServiceRun(hs)), r, given))]
      && Possible(After(asked), Net(EventLoop.WriteDone(n, 0, EventLoop.Success)))
  {
    hide IsRun, After, NetRun, ServiceRun, ReplyTo, Site.Handled, Site.Servable, EventLoop.Sound, AuthService.After;
    var accept := EventLoop.Accept(EventLoop.Success);
    RunsOfBoth(hs);
    Accepting(NetRun(hs));
    Extend(hs, Net(accept));
    Extend(hs + [Net(accept)], Dispatch(|After(hs).net.conns|, 0, r, given));
  }

  lemma Accepting(es: seq<EventLoop.Event>)
    requires EventLoop.IsRun(EventLoop.START, es) && EventLoop.Signal !in es
    ensures
      var w, accept := EventLoop.After(EventLoop.START, es), EventLoop.Accept(EventLoop.Success);
      && EventLoop.Enabled(w, accept)
      && EventLoop.Step(w, accept).conns ==
           w.conns + [EventLoop.Conn(true, [EventLoop.Reading(false)], EventLoop.NO_RESPONSE)]
  {
    EventLoop.OpenUntilSignal(es);
    EventLoop.SoundAlways(es);
    EventLoop.AcceptedLives(es);
    var accept := EventLoop.Accept(EventLoop.Success);
    EventLoop.Extend(es, accept);
  }
}
