/** The two wrapped connections of a proxied connection, whose Close methods call each other
    (proxy/entry.go). */
module ConnClose {
  import opened Wrappers

  type Error = Option<string>

  datatype Hook = ClientDisconnected(addon: nat) | ServerDisconnected(addon: nat)

  /** What one connection context looks like; counters say how often something was done. */
  datatype View = View(
    addons: nat, tls: bool, closeAfterResponse: bool, attached: bool,
    clientClosed: bool, clientErr: Error, clientCloses: nat, chanCloses: nat, closeReads: nat,
    serverClosed: bool, serverErr: Error, serverCloses: nat, hooks: seq<Hook>,
    clientResult: Error, serverResult: Error)

  function ClientHooks(n: nat): seq<Hook> { seq(n, i requires 0 <= i < n => ClientDisconnected(i)) }

  function ServerHooks(n: nat): seq<Hook> { seq(n, i requires 0 <= i < n => ServerDisconnected(i)) }

  function Unclosed(v: View): nat {
    (if v.clientClosed then 0 else 1) + if v.attached && !v.serverClosed then 1 else 0
  }

  /** wrapClientConn.Close */
  function CloseClient(v: View): View
    decreases Unclosed(v)
  {
    if v.clientClosed then v else
      var w := v.(clientClosed := true, clientErr := v.clientResult, clientCloses := v.clientCloses + 1,
                  chanCloses := v.chanCloses + 1, hooks := v.hooks + ClientHooks(v.addons));
      if w.attached then CloseServer(w) else w
  }

  /** wrapServerConn.Close */
  function CloseServer(v: View): View
    requires v.attached
    decreases Unclosed(v)
  {
    if v.serverClosed then v else
      var w := v.(serverClosed := true, serverErr := v.serverResult, serverCloses := v.serverCloses + 1,
                  hooks := v.hooks + ServerHooks(v.addons));
      if !w.tls then w.(closeReads := w.closeReads + 1)
      else if !w.closeAfterResponse then CloseClient(w)
      else w
  }

  // ----- the objects

  /** A network connection; `result` is what its Close returns. */
  class NetConn {
    const result: Error
    var closes: nat
    var closeReads: nat

    constructor (result: Error)
      ensures this.result == result && closes == 0 && closeReads == 0
    {
      this.result := result;
      closes, closeReads := 0, 0;
    }
  }

  class ClientConn {
    const conn: NetConn
    var closed: bool
    var closeErr: Error
    var chanCloses: nat  // how often closeChan was closed

    constructor (conn: NetConn)
      ensures this.conn == conn && !closed && closeErr == None && chanCloses == 0
    {
      this.conn := conn;
      closed, closeErr, chanCloses := false, None, 0;
    }
  }

  class ServerConn {
    const conn: NetConn
    var closed: bool
    var closeErr: Error

    constructor (conn: NetConn)
      ensures this.conn == conn && !closed && closeErr == None
    {
      this.conn := conn;
      closed, closeErr := false, None;
    }
  }

  class ConnContext {
    const addons: nat
    const client: ClientConn
    var server: ServerConn?
    var tls: bool
    var closeAfterResponse: bool
    var hooks: seq<Hook>  // the addon calls made so far

    constructor (addons: nat, client: ClientConn, tls: bool)
      requires !client.closed && client.closeErr == None && client.chanCloses == 0 && client.conn.closes == 0
      ensures this.addons == addons && this.client == client && server == null && this.tls == tls
      ensures !closeAfterResponse && hooks == [] && Valid()
    {
      this.addons, this.client, this.tls := addons, client, tls;
      server, closeAfterResponse, hooks := null, false, [];
    }

    function Repr(): set<object>
      reads this
    {
      {this, client, client.conn} + if server == null then {} else {server, server.conn}
    }

    ghost predicate Valid()
      reads this
    {
      server != null ==> server.conn != client.conn
    }

    ghost function Now(): View
      reads this, Repr()
      requires Valid()
    {
      View(
        addons, tls, closeAfterResponse, server != null,
        client.closed, client.closeErr, client.conn.closes, client.chanCloses, client.conn.closeReads,
        server != null && server.closed, if server == null then None else server.closeErr,
        if server == null then 0 else server.conn.closes, hooks,
        client.conn.result, if server == null then None else server.conn.result)
    }

    /** The dial function stores the server connection. */
    method Attach(s: ServerConn)
      requires Valid() && server == null && s.conn != client.conn
      requires !s.closed && s.closeErr == None && s.conn.closes == 0
      modifies this`server
      ensures Valid() && Now() == old(Now()).(attached := true, serverResult := s.conn.result)
    {
      server := s;
    }

    method CloseClientConn() returns (err: Error)
      requires Valid()
      modifies Repr()
      ensures Valid() && server == old(server) && Now() == CloseClient(old(Now()))
      ensures err == client.closeErr
      decreases Unclosed(Now())
    {
      if client.closed {
        return client.closeErr;
      }
      client.closed := true;
      client.conn.closes := client.conn.closes + 1;
      client.closeErr := client.conn.result;
      client.chanCloses := client.chanCloses + 1;
      for i := 0 to addons
        modifies this`hooks
        invariant hooks == old(hooks) + ClientHooks(i)
      {
        hooks := hooks + [ClientDisconnected(i)];
      }
      if server != null {
        var _ := CloseServerConn();
      }
      return client.closeErr;
    }

    method CloseServerConn() returns (err: Error)
      requires Valid() && server != null
      modifies Repr()
      ensures Valid() && server == old(server) && Now() == CloseServer(old(Now()))
      ensures err == server.closeErr
      decreases Unclosed(Now())
    {
      if server.closed {
        return server.closeErr;
      }
      server.closed := true;
      server.conn.closes := server.conn.closes + 1;
      server.closeErr := server.conn.result;
      for i := 0 to addons
        modifies this`hooks
        invariant hooks == old(hooks) + ServerHooks(i)
      {
        hooks := hooks + [ServerDisconnected(i)];
      }
      if !tls {
        client.conn.closeReads := client.conn.closeReads + 1;
      } else if !closeAfterResponse {
        var _ := CloseClientConn();
      }
      return server.closeErr;
    }
  }

  // ----- runs of calls

  datatype Call = CallCloseClient | CallCloseServer | CallAttach(result: Error) | SetTls | SetCloseAfterResponse

  function Apply(v: View, c: Call): View {
    match c
    case CallCloseClient => CloseClient(v)
    case CallCloseServer => if v.attached then CloseServer(v) else v
    case CallAttach(r) => if v.attached then v else v.(attached := true, serverResult := r)
    case SetTls => v.(tls := true)
    case SetCloseAfterResponse => v.(closeAfterResponse := true)
  }

  function After(v: View, calls: seq<Call>): View {
    if calls == [] then v else Apply(After(v, calls[..|calls| - 1]), calls[|calls| - 1])
  }

  function Start(addons: nat, tls: bool, result: Error): View {
    View(addons, tls, false, false, false, None, 0, 0, 0, false, None, 0, [], result, None)
  }

  function Count(hs: seq<Hook>, h: Hook): nat {
    if hs == [] then 0 else Count(hs[..|hs| - 1], h) + if hs[|hs| - 1] == h then 1 else 0
  }

  /** The counters and hooks agree with the flags: everything happened once on each closed side, and
      nothing on an open one. */
  ghost predicate Once(v: View) {
    v.clientCloses == (if v.clientClosed then 1 else 0) && v.chanCloses == v.clientCloses &&
    v.serverCloses == (if v.serverClosed then 1 else 0) &&
    (v.serverClosed ==> v.attached) &&
    v.clientErr == (if v.clientClosed then v.clientResult else None) &&
    v.serverErr == (if v.serverClosed then v.serverResult else None) &&
    v.closeReads <= v.serverCloses &&
    forall i: nat ::
      Count(v.hooks, ClientDisconnected(i)) == (if v.clientClosed && i < v.addons then 1 else 0) &&
      Count(v.hooks, ServerDisconnected(i)) == (if v.serverClosed && i < v.addons then 1 else 0)
  }

  lemma {:induction false} CountAppend(a: seq<Hook>, b: seq<Hook>, h: Hook)
    ensures Count(a + b, h) == Count(a, h) + Count(b, h)
  {
    if b == [] {
      assert a + b == a;
    } else {
      assert (a + b)[..|a + b| - 1] == a + b[..|b| - 1];
      CountAppend(a, b[..|b| - 1], h);
    }
  }

  lemma {:induction false} CountHooks(n: nat, i: nat)
    ensures Count(ClientHooks(n), ClientDisconnected(i)) == if i < n then 1 else 0
    ensures Count(ServerHooks(n), ServerDisconnected(i)) == if i < n then 1 else 0
    ensures Count(ClientHooks(n), ServerDisconnected(i)) == 0 && Count(ServerHooks(n), ClientDisconnected(i)) == 0
  {
    if n > 0 {
      assert ClientHooks(n)[..n - 1] == ClientHooks(n - 1) && ServerHooks(n)[..n - 1] == ServerHooks(n - 1);
      CountHooks(n - 1, i);
    }
  }

  lemma MarkClient(v: View)
    requires Once(v) && !v.clientClosed
    ensures Once(v.(clientClosed := true, clientErr := v.clientResult, clientCloses := v.clientCloses + 1,
                    chanCloses := v.chanCloses + 1, hooks := v.hooks + ClientHooks(v.addons)))
  {
    forall i: nat
      ensures Count(v.hooks + ClientHooks(v.addons), ClientDisconnected(i)) == if i < v.addons then 1 else 0
      ensures Count(v.hooks + ClientHooks(v.addons), ServerDisconnected(i)) == Count(v.hooks, ServerDisconnected(i))
    {
      CountAppend(v.hooks, ClientHooks(v.addons), ClientDisconnected(i));
      CountAppend(v.hooks, ClientHooks(v.addons), ServerDisconnected(i));
      CountHooks(v.addons, i);
    }
  }

  lemma MarkServer(v: View)
    requires Once(v) && v.attached && !v.serverClosed
    ensures Once(v.(serverClosed := true, serverErr := v.serverResult, serverCloses := v.serverCloses + 1,
                    closeReads := v.closeReads + if v.tls then 0 else 1, hooks := v.hooks + ServerHooks(v.addons)))
  {
    forall i: nat
      ensures Count(v.hooks + ServerHooks(v.addons), ServerDisconnected(i)) == if i < v.addons then 1 else 0
      ensures Count(v.hooks + ServerHooks(v.addons), ClientDisconnected(i)) == Count(v.hooks, ClientDisconnected(i))
    {
      CountAppend(v.hooks, ServerHooks(v.addons), ServerDisconnected(i));
      CountAppend(v.hooks, ServerHooks(v.addons), ClientDisconnected(i));
      CountHooks(v.addons, i);
    }
  }

  /** Closing the client changes nothing when it was closed. Otherwise it marks the client and tells the addons
      so, then does the same for an open server that is attached; for a plain client the read side is shut too. */
  lemma CloseClientExactly(v: View)
    ensures v.clientClosed ==> CloseClient(v) == v
    ensures
      var server := v.attached && !v.serverClosed;
      !v.clientClosed ==>
        CloseClient(v) ==
        v.(clientClosed := true, clientErr := v.clientResult, clientCloses := v.clientCloses + 1,
           chanCloses := v.chanCloses + 1, closeReads := v.closeReads + (if server && !v.tls then 1 else 0),
           serverClosed := v.serverClosed || server, serverErr := if server then v.serverResult else v.serverErr,
           serverCloses := v.serverCloses + (if server then 1 else 0),
           hooks := v.hooks + ClientHooks(v.addons) + if server then ServerHooks(v.addons) else [])
  {
    if !v.clientClosed {
      var w := v.(clientClosed := true, clientErr := v.clientResult, clientCloses := v.clientCloses + 1,
                  chanCloses := v.chanCloses + 1, hooks := v.hooks + ClientHooks(v.addons));
      assert w.hooks + [] == w.hooks;
      hide ClientHooks;
      hide ServerHooks;
      assert CloseClient(v) == if w.attached then CloseServer(w) else w;
      if w.attached && !w.serverClosed {
        var x := w.(serverClosed := true, serverErr := w.serverResult, serverCloses := w.serverCloses + 1,
                    hooks := w.hooks + ServerHooks(w.addons));
        assert CloseClient(x) == x;
      }
    }
  }

  /** Closing the server changes nothing when it was closed. Otherwise it marks the server and tells the addons.
      The client is closed with it exactly on TLS when the response was not to end the connection, and else stays
      as it was, but that the read side of a plain one is shut. */
  lemma CloseServerExactly(v: View)
    requires v.attached
    ensures v.serverClosed ==> CloseServer(v) == v
    ensures
      var client := v.tls && !v.closeAfterResponse && !v.clientClosed;
      !v.serverClosed ==>
        CloseServer(v) ==
        v.(serverClosed := true, serverErr := v.serverResult, serverCloses := v.serverCloses + 1,
           closeReads := v.closeReads + (if v.tls then 0 else 1),
           clientClosed := v.clientClosed || client, clientErr := if client then v.clientResult else v.clientErr,
           clientCloses := v.clientCloses + (if client then 1 else 0),
           chanCloses := v.chanCloses + (if client then 1 else 0),
           hooks := v.hooks + ServerHooks(v.addons) + if client then ClientHooks(v.addons) else [])
    ensures CloseServer(v).clientClosed <==> v.clientClosed || (!v.serverClosed && v.tls && !v.closeAfterResponse)
  {
    if !v.serverClosed {
      var w := v.(serverClosed := true, serverErr := v.serverResult, serverCloses := v.serverCloses + 1,
                  hooks := v.hooks + ServerHooks(v.addons));
      assert w.hooks + [] == w.hooks;
      CloseClientExactly(w);
      hide ClientHooks;
      hide ServerHooks;
      hide CloseClient;
    }
  }

  /** Closing keeps everything to once. */
  lemma CloseClientOnce(v: View)
    requires Once(v)
    ensures Once(CloseClient(v)) && CloseClient(v).clientClosed
    ensures CloseClient(v).serverClosed <==> v.serverClosed || (v.attached && !v.clientClosed)
  {
    CloseClientExactly(v);
    if !v.clientClosed {
      MarkClient(v);
      var w := v.(clientClosed := true, clientErr := v.clientResult, clientCloses := v.clientCloses + 1,
                  chanCloses := v.chanCloses + 1, hooks := v.hooks + ClientHooks(v.addons));
      hide Once;
      if v.attached && !v.serverClosed {
        MarkServer(w);
        assert CloseClient(v) ==
               w.(serverClosed := true, serverErr := w.serverResult, serverCloses := w.serverCloses + 1,
                  closeReads := w.closeReads + (if w.tls then 0 else 1), hooks := w.hooks + ServerHooks(w.addons));
      } else {
        assert w.hooks + [] == w.hooks;
        assert CloseClient(v) == w;
      }
    }
  }

  lemma CloseServerOnce(v: View)
    requires Once(v) && v.attached
    ensures Once(CloseServer(v)) && CloseServer(v).serverClosed
    ensures CloseServer(v).clientClosed <==> v.clientClosed || (!v.serverClosed && v.tls && !v.closeAfterResponse)
  {
    CloseServerExactly(v);
    if !v.serverClosed {
      MarkServer(v);
      var w := v.(serverClosed := true, serverErr := v.serverResult, serverCloses := v.serverCloses + 1,
                  closeReads := v.closeReads + (if v.tls then 0 else 1), hooks := v.hooks + ServerHooks(v.addons));
      hide Once;
      if v.tls && !v.closeAfterResponse && !v.clientClosed {
        MarkClient(w);
        assert CloseServer(v) ==
               w.(clientClosed := true, clientErr := w.clientResult, clientCloses := w.clientCloses + 1,
                  chanCloses := w.chanCloses + 1, hooks := w.hooks + ClientHooks(w.addons));
      } else {
        assert w.hooks + [] == w.hooks;
        assert CloseServer(v) == w;
      }
    }
  }

  /** Closing again changes nothing and so returns the stored error. */
  lemma CloseTwice(v: View)
    ensures CloseClient(CloseClient(v)) == CloseClient(v)
    ensures v.attached ==> CloseServer(v).attached && CloseServer(CloseServer(v)) == CloseServer(v)
  {
    CloseClientExactly(v);
    if v.attached { CloseServerExactly(v); }
    hide ClientHooks;
    hide ServerHooks;
  }

  /** Over any sequence of calls each underlying connection is closed at most once, closeChan is closed
      at most once, each addon is told at most once per side, and the stored errors are the
      results. */
  lemma {:induction false} RunsCloseOnce(addons: nat, tls: bool, result: Error, calls: seq<Call>)
    ensures Once(After(Start(addons, tls, result), calls))
    decreases |calls|
  {
    if calls != [] {
      var n := |calls| - 1;
      RunsCloseOnce(addons, tls, result, calls[..n]);
      var v := After(Start(addons, tls, result), calls[..n]);
      match calls[n]
      case CallCloseClient => CloseClientOnce(v);
      case CallCloseServer => if v.attached { CloseServerOnce(v); }
      case CallAttach(_) =>
      case SetTls =>
      case SetCloseAfterResponse =>
    }
  }

  /** The server was closed by one of the calls while the client was plain. */
  predicate ClosedPlain(v: View, calls: seq<Call>) {
    calls != [] &&
    var before := After(v, calls[..|calls| - 1]);
    ClosedPlain(v, calls[..|calls| - 1]) || (!before.serverClosed && After(v, calls).serverClosed && !before.tls)
  }

  /** The read side of the client is shut exactly when the server was closed while the client was plain. */
  lemma {:induction false} ReadSideShutExactly(addons: nat, tls: bool, result: Error, calls: seq<Call>)
    ensures
      var v := After(Start(addons, tls, result), calls);
      v.closeReads == if ClosedPlain(Start(addons, tls, result), calls) then 1 else 0
    decreases |calls|
  {
    if calls != [] {
      var n, start := |calls| - 1, Start(addons, tls, result);
      ReadSideShutExactly(addons, tls, result, calls[..n]);
      RunsCloseOnce(addons, tls, result, calls[..n]);
      var v := After(start, calls[..n]);
      CloseClientExactly(v);
      if v.attached { CloseServerExactly(v); }
      hide CloseClient;
      hide CloseServer;
      ClosedPlainOnce(addons, tls, result, calls[..n]);
    }
  }

  lemma {:induction false} ClosedPlainOnce(addons: nat, tls: bool, result: Error, calls: seq<Call>)
    ensures ClosedPlain(Start(addons, tls, result), calls) ==> After(Start(addons, tls, result), calls).serverClosed
    decreases |calls|
  {
    if calls != [] {
      var n := |calls| - 1;
      ClosedPlainOnce(addons, tls, result, calls[..n]);
      var v := After(Start(addons, tls, result), calls[..n]);
      CloseClientExactly(v);
      if v.attached { CloseServerExactly(v); }
      hide CloseClient;
      hide CloseServer;
    }
  }
}
