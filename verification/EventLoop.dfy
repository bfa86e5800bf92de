/** The connection life cycle as a step system. The event loop runs one completion handler at
    a time; which pending operation completes next, and how, is up to the environment. */
module EventLoop {
  import opened Text
  import ResponseFraming

  type Response = ResponseFraming.Response

  const BAD_REQUEST: Response := ResponseFraming.Stock(400)

  /** The response of a connection that has none yet. */
  const NO_RESPONSE: Response := ResponseFraming.Response(200, [], "")

  /** A pending operation. A doomed one was started on a closed socket. A write refers to
      the response it was started with. */
  datatype Op = Reading(doomed: bool) | Writing(doomed: bool, buffers: Response)

  datatype Conn = Conn(open: bool, pending: seq<Op>, res: Response)

  /** Connections are numbered in the order they were accepted; `live` is the manager's set. */
  datatype World = World(
    acceptorOpen: bool,
    accepts: nat,
    waiting: bool,
    conns: seq<Conn>,
    live: set<nat>)

  datatype Result = Success | Failed | Aborted

  /** What the parser makes of the bytes that were read. */
  datatype Parse = Malformed | Complete(response: Response) | Partial

  datatype Event =
    | Accept(result: Result)
    | ReadDone(c: nat, k: nat, result: Result, parse: Parse)
    | WriteDone(c: nat, k: nat, result: Result)
    | Signal

  /** Success needs an operation that was started on an open socket; an operation is aborted
      only by our own close. One that was started before the close may still succeed. */
  predicate MayEnd(conn: Conn, doomed: bool, r: Result) {
    && (r == Success ==> !doomed)
    && (r == Aborted ==> !doomed && !conn.open)
  }

  predicate Enabled(w: World, e: Event) {
    match e
    case Accept(r) => w.accepts > 0 && (r == Aborted ==> !w.acceptorOpen)
    case ReadDone(c, k, r, _) =>
      && c < |w.conns| && k < |w.conns[c].pending| && w.conns[c].pending[k].Reading?
      && MayEnd(w.conns[c], w.conns[c].pending[k].doomed, r)
    case WriteDone(c, k, r) =>
      && c < |w.conns| && k < |w.conns[c].pending| && w.conns[c].pending[k].Writing?
      && MayEnd(w.conns[c], w.conns[c].pending[k].doomed, r)
    case Signal => w.waiting
  }

  // ----- the handlers

  const NEW_CONN := Conn(true, [], NO_RESPONSE)

  function DoRead(conn: Conn): Conn {
    conn.(pending := conn.pending + [Reading(!conn.open)])
  }

  function DoWrite(conn: Conn): Conn {
    conn.(pending := conn.pending + [Writing(!conn.open, conn.res)])
  }

  /** The connection once its pending operation `k` has ended. */
  function Ended(conn: Conn, k: nat): Conn
    requires k < |conn.pending|
  {
    conn.(pending := conn.pending[..k] + conn.pending[k + 1..])
  }

  /** `connection_manager::stop` */
  function StopOne(w: World, c: nat): World
    requires c < |w.conns|
  {
    w.(live := w.live - {c}, conns := w.conns[c := w.conns[c].(open := false)])
  }

  function Closed(conns: seq<Conn>, live: set<nat>): (r: seq<Conn>)
    ensures |r| == |conns|
    ensures forall i :: 0 <= i < |conns| ==> r[i] == if i in live then conns[i].(open := false) else conns[i]
  {
    seq(|conns|, i requires 0 <= i < |conns| => if i in live then conns[i].(open := false) else conns[i])
  }

  /** The read handler, for a read that succeeded. */
  function AfterRead(conn: Conn, parse: Parse): Conn {
    match parse
    case Malformed => DoWrite(conn.(res := BAD_REQUEST))
    case Complete(response) => DoWrite(conn.(res := response))
    case Partial => DoRead(conn)
  }

  function Step(w: World, e: Event): World
    requires Enabled(w, e)
  {
    match e
    case Accept(r) =>
      if !w.acceptorOpen then w.(accepts := w.accepts - 1)
      else if r == Success then
        w.(conns := w.conns + [DoRead(NEW_CONN)], live := w.live + {|w.conns|})
      else w
    case ReadDone(c, k, r, parse) =>
      var done := Ended(w.conns[c], k);
      var w1 := w.(conns := w.conns[c := if r == Success then AfterRead(done, parse) else done]);
      if r == Failed then StopOne(w1, c) else w1
    case WriteDone(c, k, r) =>
      var w1 := w.(conns := w.conns[c := Ended(w.conns[c], k)]);
      if r == Aborted then w1 else StopOne(w1, c)
    case Signal =>
      World(false, w.accepts, false, Closed(w.conns, w.live), {})
  }

  /** The state in which `run` finds the loop. */
  const START := World(true, 1, true, [], {})

  predicate IsRun(w: World, es: seq<Event>)
    decreases |es|, 0
  {
    es == [] || (IsRun(w, es[..|es| - 1]) && Enabled(After(w, es[..|es| - 1]), es[|es| - 1]))
  }

  /** The state after a run. */
  function After(w: World, es: seq<Event>): World
    requires IsRun(w, es)
    decreases |es|, 1
  {
    if es == [] then w else Step(After(w, es[..|es| - 1]), es[|es| - 1])
  }

  // ----- safety over every run

  predicate IsWriting(conn: Conn) {
    |conn.pending| > 0 && conn.pending[0].Writing?
  }

  predicate IsReading(conn: Conn) {
    |conn.pending| > 0 && conn.pending[0].Reading?
  }

  /** A connection in the live set has an open socket and exactly one pending operation, and
      only those have. A pending write still refers to the current response. */
  ghost predicate Sound(w: World) {
    && (forall c :: c in w.live ==> c < |w.conns|)
    && (forall c :: 0 <= c < |w.conns| ==>
          && (c in w.live <==> w.conns[c].open)
          && |w.conns[c].pending| <= 1
          && (w.conns[c].open ==> |w.conns[c].pending| == 1 && !w.conns[c].pending[0].doomed)
          && (IsWriting(w.conns[c]) ==> w.conns[c].pending[0].buffers == w.conns[c].res))
    && (w.acceptorOpen <==> w.waiting)
    && w.accepts <= 1 && (w.acceptorOpen ==> w.accepts == 1)
    && (!w.acceptorOpen ==> w.live == {})
  }

  lemma SoundAccept(w: World, result: Result)
    requires Sound(w) && Enabled(w, Accept(result))
    ensures Sound(Step(w, Accept(result)))
  {
  }

  lemma SoundRead(w: World, e: Event)
    requires Sound(w) && Enabled(w, e) && e.ReadDone?
    ensures Sound(Step(w, e))
  {
  }

  lemma SoundWrite(w: World, e: Event)
    requires Sound(w) && Enabled(w, e) && e.WriteDone?
    ensures Sound(Step(w, e))
  {
  }

  lemma SoundSignal(w: World)
    requires Sound(w) && w.waiting
    ensures Sound(Step(w, Signal))
  {
  }

  lemma SoundStep(w: World, e: Event)
    requires Sound(w) && Enabled(w, e)
    ensures Sound(Step(w, e))
  {
    hide Sound;
    match e
    case Accept(result) => SoundAccept(w, result);
    case ReadDone(_, _, _, _) => SoundRead(w, e);
    case WriteDone(_, _, _) => SoundWrite(w, e);
    case Signal => SoundSignal(w);
  }

  /** Every state of every run is sound. */
  lemma {:induction false} SoundAlways(es: seq<Event>)
    requires IsRun(START, es)
    ensures Sound(After(START, es))
  {
    if es != [] {
      SoundAlways(es[..|es| - 1]);
      SoundStep(After(START, es[..|es| - 1]), es[|es| - 1]);
    }
  }

  /** The event hands a request of connection `c` to the router. */
  predicate Dispatches(e: Event, c: nat) {
    e.ReadDone? && e.c == c && e.result == Success && e.parse.Complete?
  }

  /** The event ends the reading of connection `c` and starts the write of this response. */
  function Answered(e: Event, c: nat): Option<Response> {
    if e.ReadDone? && e.c == c && e.result == Success then
      match e.parse
      case Malformed => Some(BAD_REQUEST)
      case Complete(response) => Some(response)
      case Partial => None
    else None
  }

  function Writes(es: seq<Event>, c: nat): nat {
    if es == [] then 0
    else Writes(es[..|es| - 1], c) + if Answered(es[|es| - 1], c).Some? then 1 else 0
  }

  /** The first response started for connection `c` in a run. */
  function FirstAnswer(es: seq<Event>, c: nat): Option<Response> {
    if es == [] then None
    else
      var before := FirstAnswer(es[..|es| - 1], c);
      if before.Some? then before else Answered(es[|es| - 1], c)
  }

  /** What a run has done to one connection, read off its present state. */
  ghost predicate History(w: World, es: seq<Event>, c: nat) {
    && Writes(es, c) <= 1
    && (Writes(es, c) == 0 <==> FirstAnswer(es, c) == None)
    && (c >= |w.conns| ==> Writes(es, c) == 0)
    && (c < |w.conns| && IsReading(w.conns[c]) ==> Writes(es, c) == 0)
    && (c < |w.conns| && IsWriting(w.conns[c]) ==> Writes(es, c) == 1)
    && (c < |w.conns| && Writes(es, c) == 1 ==> FirstAnswer(es, c) == Some(w.conns[c].res))
  }

  lemma NothingYet(c: nat)
    ensures History(START, [], c)
  {
  }

  lemma HistoryStep(w: World, es: seq<Event>, e: Event, c: nat)
    requires Sound(w) && Enabled(w, e) && History(w, es, c)
    ensures History(Step(w, e), es + [e], c)
  {
    assert (es + [e])[..|es|] == es;
  }

  /** In every run each connection starts at most one response write, so it is dispatched at
      most once, and from then on its response is the one that was started. */
  lemma {:induction false} OneAnswer(es: seq<Event>, c: nat)
    requires IsRun(START, es)
    ensures History(After(START, es), es, c)
  {
    hide History, Sound, Step;
    if es != [] {
      OneAnswer(es[..|es| - 1], c);
      SoundAlways(es[..|es| - 1]);
      HistoryStep(After(START, es[..|es| - 1]), es[..|es| - 1], es[|es| - 1], c);
      assert es[..|es| - 1] + [es[|es| - 1]] == es;
    } else {
      NothingYet(c);
    }
  }

  function Count(es: seq<Event>, c: nat): nat {
    if es == [] then 0
    else Count(es[..|es| - 1], c) + if Dispatches(es[|es| - 1], c) then 1 else 0
  }

  lemma {:induction false} DispatchStartsWrite(es: seq<Event>, c: nat)
    ensures Count(es, c) <= Writes(es, c)
  {
    if es != [] {
      DispatchStartsWrite(es[..|es| - 1], c);
    }
  }

  /** In every run the router sees each connection at most once. */
  lemma DispatchedOnce(es: seq<Event>, c: nat)
    requires IsRun(START, es)
    ensures Count(es, c) <= 1
  {
    OneAnswer(es, c);
    DispatchStartsWrite(es, c);
  }

  /** A write that completes sent the response its own connection was answered with, and no
      step before changed that response. */
  lemma WriteSendsAnswer(es: seq<Event>, e: Event)
    requires IsRun(START, es) && e.WriteDone? && Enabled(After(START, es), e)
    ensures
      var conn := After(START, es).conns[e.c];
      Writes(es, e.c) == 1 && FirstAnswer(es, e.c) == Some(conn.pending[e.k].buffers)
  {
    hide Step;
    SoundAlways(es);
    OneAnswer(es, e.c);
  }

  // ----- what is served

  lemma Extend(es: seq<Event>, e: Event)
    requires IsRun(START, es) && Enabled(After(START, es), e)
    ensures IsRun(START, es + [e]) && After(START, es + [e]) == Step(After(START, es), e)
  {
    hide Enabled, Step;
    assert (es + [e])[..|es|] == es;
  }

  lemma OpenStep(w: World, e: Event)
    requires Sound(w) && Enabled(w, e)
    ensures Step(w, e).acceptorOpen == Step(w, e).waiting == (w.acceptorOpen && e != Signal)
  {
  }

  /** The acceptor is open, and the stop handler armed, until the signal. */
  lemma {:induction false} OpenUntilSignal(es: seq<Event>)
    requires IsRun(START, es)
    ensures After(START, es).acceptorOpen == After(START, es).waiting == (Signal !in es)
  {
    if es != [] {
      hide Step, Enabled, Sound;
      OpenUntilSignal(es[..|es| - 1]);
      SoundAlways(es[..|es| - 1]);
      OpenStep(After(START, es[..|es| - 1]), es[|es| - 1]);
      assert es == es[..|es| - 1] + [es[|es| - 1]];
    }
  }

  /** Every connection that is accepted before the signal is live and reading. */
  lemma AcceptedLives(es: seq<Event>)
    requires IsRun(START, es) && Signal !in es
    ensures IsRun(START, es + [Accept(Success)])
    ensures
      var w, w' := After(START, es), After(START, es + [Accept(Success)]);
      && w'.conns == w.conns + [Conn(true, [Reading(false)], ResponseFraming.Response(200, [], ""))]
      && w'.live == w.live + {|w.conns|}
  {
    hide IsRun, After;
    OpenUntilSignal(es);
    SoundAlways(es);
    Extend(es, Accept(Success));
    assert DoRead(NEW_CONN) == Conn(true, [Reading(false)], NO_RESPONSE);
  }

  /** The successful accepts of a run before the signal. */
  function Accepted(es: seq<Event>): nat {
    if es == [] then 0
    else
      var init := es[..|es| - 1];
      Accepted(init) + if es[|es| - 1] == Accept(Success) && Signal !in init then 1 else 0
  }

  /** No connection is dropped, and none appears from nowhere. */
  lemma {:induction false} ConnectionsAreAccepted(es: seq<Event>)
    requires IsRun(START, es)
    ensures |After(START, es).conns| == Accepted(es)
  {
    if es != [] {
      ConnectionsAreAccepted(es[..|es| - 1]);
      OpenUntilSignal(es[..|es| - 1]);
    }
  }

  /** The one operation of a live connection may succeed. A read may bring anything: it is
      followed by another read, by the write of the response, or by the write of a bad request. */
  lemma ReadGoesOn(es: seq<Event>, c: nat, parse: Parse)
    requires IsRun(START, es) && c < |After(START, es).conns| && c in After(START, es).live && IsReading(After(START, es).conns[c])
    ensures IsRun(START, es + [ReadDone(c, 0, Success, parse)])
    ensures
      var conn := After(START, es + [ReadDone(c, 0, Success, parse)]).conns[c];
      && conn.open && c in After(START, es + [ReadDone(c, 0, Success, parse)]).live
      && conn.pending ==
           match parse
           case Partial => [Reading(false)]
           case Complete(response) => [Writing(false, response)]
           case Malformed => [Writing(false, ResponseFraming.Stock(400))]
  {
    hide IsRun, After;
    SoundAlways(es);
    Extend(es, ReadDone(c, 0, Success, parse));
  }

  /** A write that ends, well or not, closes its connection. */
  lemma WriteCloses(es: seq<Event>, c: nat, result: Result)
    requires IsRun(START, es) && c < |After(START, es).conns| && c in After(START, es).live && IsWriting(After(START, es).conns[c]) && result != Aborted
    ensures IsRun(START, es + [WriteDone(c, 0, result)])
    ensures
      var w := After(START, es + [WriteDone(c, 0, result)]);
      c !in w.live && !w.conns[c].open && w.conns[c].pending == []
  {
    hide IsRun, After;
    SoundAlways(es);
    Extend(es, WriteDone(c, 0, result));
  }

  /** A read that fails closes its connection. */
  lemma ReadCloses(es: seq<Event>, c: nat, parse: Parse)
    requires IsRun(START, es) && c < |After(START, es).conns| && c in After(START, es).live && IsReading(After(START, es).conns[c])
    ensures IsRun(START, es + [ReadDone(c, 0, Failed, parse)])
    ensures
      var w := After(START, es + [ReadDone(c, 0, Failed, parse)]);
      c !in w.live && !w.conns[c].open && w.conns[c].pending == []
  {
    hide IsRun, After;
    SoundAlways(es);
    Extend(es, ReadDone(c, 0, Failed, parse));
  }

  /** Until the signal, a client that connects and sends a request is sent its response, and
      its connection is closed. */
  lemma ClientServed(es: seq<Event>, response: Response)
    requires IsRun(START, es) && Signal !in es
    ensures
      var n := |After(START, es).conns|;
      var asked := es + [Accept(Success)] + [ReadDone(n, 0, Success, Complete(response))];
      && IsRun(START, asked + [WriteDone(n, 0, Success)])
      && IsRun(START, asked) && |After(START, asked).conns| > n
      && After(START, asked).conns[n].pending == [Writing(false, response)]
      && n !in After(START, asked + [WriteDone(n, 0, Success)]).live
  {
    var n := |After(START, es).conns|;
    AcceptedLives(es);
    ReadGoesOn(es + [Accept(Success)], n, Complete(response));
    WriteCloses(es + [Accept(Success)] + [ReadDone(n, 0, Success, Complete(response))], n, Success);
  }

  // ----- draining after the stop signal

  /** A successful end starts one more operation, which is doomed if the socket is closed. */
  function Weight(pending: seq<Op>): nat {
    if pending == [] then 0 else Weight(pending[1..]) + if pending[0].doomed then 1 else 2
  }

  /** The handlers the pending operations can still cause to run. */
  function Left(conns: seq<Conn>): nat {
    if conns == [] then 0 else Left(conns[..|conns| - 1]) + Weight(conns[|conns| - 1].pending)
  }

  function Measure(w: World): nat {
    Left(w.conns) + w.accepts
  }

  lemma {:induction false} LeftUpdate(conns: seq<Conn>, c: nat, conn: Conn)
    requires c < |conns|
    ensures Left(conns[c := conn]) == Left(conns) - Weight(conns[c].pending) + Weight(conn.pending)
  {
    var n := |conns| - 1;
    if c < n {
      LeftUpdate(conns[..n], c, conn);
      assert conns[c := conn][..n] == conns[..n][c := conn];
    } else {
      assert conns[c := conn][..n] == conns[..n];
    }
  }

  lemma {:induction false} LeftBound(conns: seq<Conn>)
    requires forall c :: 0 <= c < |conns| ==> |conns[c].pending| <= 1
    ensures Left(conns) <= 2 * |conns|
  {
    if conns != [] {
      LeftBound(conns[..|conns| - 1]);
      var p := conns[|conns| - 1].pending;
      if p != [] {
        assert p[1..] == [] && Weight(p[1..]) == 0;
      }
      assert Weight(p) <= 2;
    }
  }

  /** After the stop signal every step lowers the measure, accepts no connection, and leaves
      the live set empty. */
  lemma DrainStep(w: World, e: Event)
    requires Sound(w) && !w.acceptorOpen && Enabled(w, e)
    ensures
      var w' := Step(w, e);
      Measure(w') < Measure(w) && !w'.acceptorOpen && w'.live == {} && |w'.conns| == |w.conns|
  {
    hide Left;
    match e
    case Accept(_) =>
    case ReadDone(c, _, _, _) =>
      LeftUpdate(w.conns, c, Step(w, e).conns[c]);
      assert Step(w, e).conns == w.conns[c := Step(w, e).conns[c]];
    case WriteDone(c, _, _) =>
      LeftUpdate(w.conns, c, Step(w, e).conns[c]);
      assert Step(w, e).conns == w.conns[c := Step(w, e).conns[c]];
    case Signal =>
  }

  /** However the environment orders what is left, the loop stops within two handlers for
      each connection and one more. */
  lemma {:induction false} Drains(w: World, es: seq<Event>)
    requires Sound(w) && !w.acceptorOpen && IsRun(w, es)
    ensures
      var w' := After(w, es);
      && Sound(w') && !w'.acceptorOpen && w'.live == {} && |w'.conns| == |w.conns|
      && |es| + Measure(w') <= Measure(w) <= 2 * |w.conns| + 1
  {
    LeftBound(w.conns);
    if es != [] {
      Drains(w, es[..|es| - 1]);
      SoundStep(After(w, es[..|es| - 1]), es[|es| - 1]);
      DrainStep(After(w, es[..|es| - 1]), es[|es| - 1]);
    }
  }

  /** The stop signal empties the live set and closes every socket in it. */
  lemma SignalStops(w: World)
    requires Sound(w) && w.waiting
    ensures
      var w' := Step(w, Signal);
      && Sound(w') && !w'.acceptorOpen && w'.live == {}
      && forall c :: 0 <= c < |w'.conns| ==> !w'.conns[c].open
  {
  }

  /** Whatever happened before the stop signal, and in whatever order the pending operations
      end after it: no connection is ever live again, none is accepted, and the loop is idle
      after at most two more handlers for each connection and one for the acceptor. */
  lemma StoppedRunDrains(es: seq<Event>, rest: seq<Event>)
    requires IsRun(START, es) && Enabled(After(START, es), Signal)
    requires IsRun(Step(After(START, es), Signal), rest)
    ensures
      var w := After(Step(After(START, es), Signal), rest);
      && w.live == {} && |w.conns| == |After(START, es).conns|
      && |rest| <= 2 * |w.conns| + 1 - Measure(w)
  {
    SoundAlways(es);
    SoundStep(After(START, es), Signal);
    Drains(Step(After(START, es), Signal), rest);
  }

  lemma {:induction false} LeftZero(conns: seq<Conn>)
    ensures Left(conns) == 0 <==> forall c :: 0 <= c < |conns| ==> conns[c].pending == []
  {
    if conns != [] {
      LeftZero(conns[..|conns| - 1]);
    }
  }

  /** After the stop signal the loop has nothing to wait for just when the measure is zero;
      until then some operation can end. */
  lemma QuietIffDrained(w: World)
    requires Sound(w) && !w.acceptorOpen
    ensures Measure(w) == 0 <==> forall e :: !Enabled(w, e)
  {
    LeftZero(w.conns);
    if Measure(w) > 0 {
      if w.accepts > 0 {
        assert Enabled(w, Accept(Failed));
      } else {
        var c: nat :| c < |w.conns| && w.conns[c].pending != [];
        assert Enabled(w, if IsReading(w.conns[c]) then ReadDone(c, 0, Failed, Partial) else WriteDone(c, 0, Failed));
      }
    }
  }
}
