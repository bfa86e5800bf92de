/** The server's objects. Every completion handler takes one step of the event loop. */
module Server {
  import opened EventLoop

  class Connection {
    var open: bool
    var pending: seq<Op>
    var res: Response

    function State(): Conn
      reads this
    {
      Conn(open, pending, res)
    }

    /** A connection owns a socket that was just accepted. */
    constructor ()
      ensures State() == NEW_CONN
    {
      open, pending, res := true, [], NO_RESPONSE;
    }

    method Start()
      modifies this
      ensures State() == EventLoop.DoRead(old(State()))
    {
      DoRead();
    }

    method Stop()
      modifies this`open
      ensures !open
    {
      open := false;
    }

    method DoRead()
      modifies this
      ensures State() == EventLoop.DoRead(old(State()))
    {
      pending := pending + [Reading(!open)];
    }

    method DoWrite()
      modifies this
      ensures State() == EventLoop.DoWrite(old(State()))
    {
      pending := pending + [Writing(!open, res)];
    }

    /** The loop takes operation `k` off its queue before it runs the handler. */
    method Dequeue(k: nat)
      requires k < |pending|
      modifies this
      ensures State() == Ended(old(State()), k)
    {
      pending := pending[..k] + pending[k + 1..];
    }

    /** The handler of `do_read`. */
    method OnRead(result: Result, parse: Parse, manager: ConnectionManager)
      modifies this, manager
      ensures State() ==
                if result == Success then AfterRead(old(State()), parse)
                else if result == Failed then old(State()).(open := false)
                else old(State())
      ensures manager.connections == old(manager.connections) - if result == Failed then {this} else {}
    {
      if result == Success {
        if parse == Malformed {
          res := BAD_REQUEST;
          DoWrite();
          return;
        }
        if parse.Complete? {
          res := parse.response;
          DoWrite();
          return;
        }
        DoRead();
      } else if result != Aborted {
        manager.Stop(this);
      }
    }

    /** The handler of `do_write`. */
    method OnWrite(result: Result, manager: ConnectionManager)
      modifies this, manager
      ensures State() == if result == Aborted then old(State()) else old(State()).(open := false)
      ensures manager.connections == old(manager.connections) - if result == Aborted then {} else {this}
    {
      if result != Aborted {
        manager.Stop(this);
      }
    }
  }

  class ConnectionManager {
    var connections: set<Connection>

    constructor ()
      ensures connections == {}
    {
      connections := {};
    }

    method Start(c: Connection)
      modifies this, c
      ensures connections == old(connections) + {c}
      ensures c.State() == EventLoop.DoRead(old(c.State()))
    {
      connections := connections + {c};
      c.Start();
    }

    method Stop(c: Connection)
      modifies this, c
      ensures connections == old(connections) - {c}
      ensures c.State() == old(c.State()).(open := false)
    {
      connections := connections - {c};
      c.Stop();
    }

    method StopAll()
      modifies this, connections
      ensures connections == {}
      ensures forall c :: c in old(connections) ==> c.State() == old(c.State()).(open := false)
    {
      var todo := connections;
      while todo != {}
        invariant todo <= connections == old(connections)
        invariant forall c :: c in todo ==> c.State() == old(c.State())
        invariant forall c :: c in old(connections) - todo ==> c.State() == old(c.State()).(open := false)
        decreases todo
      {
        var c :| c in todo;
        c.Stop();
        todo := todo - {c};
      }
      connections := {};
    }
  }

  class Server {
    var acceptorOpen: bool
    var accepts: nat
    var waiting: bool
    const manager: ConnectionManager
    ghost var all: seq<Connection>

    ghost predicate Valid()
      reads this, manager
    {
      && (forall i, j :: 0 <= i < j < |all| ==> all[i] != all[j])
      && (forall c :: c in manager.connections ==> c in all)
    }

    ghost function States(): (r: seq<Conn>)
      reads this, all
      ensures |r| == |all| && forall i :: 0 <= i < |all| ==> r[i] == all[i].State()
    {
      seq(|all|, i requires 0 <= i < |all| reads this, all => all[i].State())
    }

    ghost function Live(): (r: set<nat>)
      reads this, manager
      ensures forall i: nat :: i in r <==> i < |all| && all[i] in manager.connections
    {
      set i: nat | i < |all| && all[i] in manager.connections
    }

    ghost function World(): World
      reads this, manager, all
    {
      EventLoop.World(acceptorOpen, accepts, waiting, States(), Live())
    }

    /** `init`: the stop handler is armed first, then the acceptor. */
    constructor ()
      ensures Valid() && World() == START
    {
      acceptorOpen, accepts, waiting, all := false, 0, false, [];
      manager := new ConnectionManager();
      new;
      DoAwaitStop();
      acceptorOpen := true;
      DoAccept();
    }

    method DoAccept()
      modifies this`accepts
      ensures accepts == old(accepts) + 1
    {
      accepts := accepts + 1;
    }

    method DoAwaitStop()
      modifies this`waiting
      ensures waiting
    {
      waiting := true;
    }

    /** The handler of `do_accept`. */
    method OnAccept(result: Result)
      requires Valid() && Enabled(World(), Accept(result))
      modifies this, manager
      ensures Valid() && World() == Step(old(World()), Accept(result))
    {
      accepts := accepts - 1;
      if !acceptorOpen {
        return;
      }
      if result == Success {
        var c := new Connection();
        manager.Start(c);
        all := all + [c];
        assert States() == old(States()) + [EventLoop.DoRead(NEW_CONN)];
        assert Live() == old(Live()) + {old(|all|)};
      }
      DoAccept();
    }

    /** The completion of a pending read of connection `i`. */
    method OnRead(ghost i: nat, c: Connection, k: nat, result: Result, parse: Parse)
      requires Valid() && Enabled(World(), ReadDone(i, k, result, parse)) && all[i] == c
      modifies manager, c
      ensures Valid() && World() == Step(old(World()), ReadDone(i, k, result, parse))
    {
      c.Dequeue(k);
      c.OnRead(result, parse, manager);
      assert States() == old(States())[i := c.State()];
      assert Live() == old(Live()) - if result == Failed then {i} else {};
    }

    /** The completion of a pending write of connection `i`. */
    method OnWrite(ghost i: nat, c: Connection, k: nat, result: Result)
      requires Valid() && Enabled(World(), WriteDone(i, k, result)) && all[i] == c
      modifies manager, c
      ensures Valid() && World() == Step(old(World()), WriteDone(i, k, result))
    {
      c.Dequeue(k);
      c.OnWrite(result, manager);
      assert States() == old(States())[i := c.State()];
      assert Live() == old(Live()) - if result == Aborted then {} else {i};
    }

    /** The handler of `do_await_stop`. */
    method OnSignal()
      requires Valid() && Enabled(World(), Signal)
      modifies this, manager, manager.connections
      ensures Valid() && World() == Step(old(World()), Signal)
    {
      waiting := false;
      acceptorOpen := false;
      manager.StopAll();
      assert World().conns == Closed(old(World()).conns, old(World()).live);
    }
  }
}
