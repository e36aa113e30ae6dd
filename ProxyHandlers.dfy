/**
 * The connection handlers of Guardian.Proxy.ProxyServer and the server object itself: what a
 * connection ends in (closed, failed, tunnelled or forwarded), given its first read, the filter,
 * URI parsing and whether the upstream connection succeeds; and the Stop / Dispose life cycle.
 */
module Server {
  import opened Wrappers
  import opened Text
  import opened Proxy
  import Int32Text

  /** A host name and a port, as given to new TcpClient(host, port). */
  datatype Endpoint = Endpoint(host: string, port: int)

  /** What new Uri(url) yields that the HTTP handler uses. */
  datatype Uri = Uri(host: string, port: int, pathAndQuery: string)

  /** How a connection ends. */
  datatype Outcome =
    | Closed(reason: Action)                          // closed before either handler runs
    | Failed(error: ProxyError)                        // a handler threw; the connection is closed
    | Tunnelled(target: Endpoint, reply: seq<byte>)   // reply sent to the client, then the relay
    | Forwarded(target: Endpoint, request: seq<byte>) // request sent to the target, then the relay

  // ---------------------------------------------------------------------------------------------
  // ParseHostAndPort

  /**
   * ParseHostAndPort: the URL split on ':'; one piece is a host on the default port, two pieces
   * a host and a port read by int.Parse, more pieces a format error.
   */
  function ParseHostAndPort(url: string, defaultPort: int): (r: Result<Endpoint, ProxyError>)
    ensures r.Ok? ==> ':' !in r.value.host && |r.value.host| <= |url| && r.value.host == url[..|r.value.host|]
    ensures r.Ok? && ':' in url ==> Int32Text.Int32Min <= r.value.port <= Int32Text.Int32Max
  {
    var segments := Split(url, ':');
    SplitFirstIsPrefix(url, ':');
    if |segments| == 1 then Ok(Endpoint(segments[0], defaultPort))
    else if |segments| == 2 then
      match Int32Text.ParseInt(segments[1])
      case Ok(port) => Ok(Endpoint(segments[0], port))
      case Err(Format) => Err(PortFormat)
      case Err(Overflow) => Err(PortOverflow)
    else Err(InvalidHostPort)
  }

  /** A URL without ':' is a host on the default port. */
  lemma HostAloneGetsDefaultPort(url: string, defaultPort: int)
    requires ':' !in url
    ensures ParseHostAndPort(url, defaultPort) == Ok(Endpoint(url, defaultPort))
  {
    SplitNone(url, ':');
  }

  /** Rendered numbers hold no ':'. */
  lemma RenderHasNoColon(n: int)
    ensures ':' !in Int32Text.Render(n)
  {
    var s := Int32Text.Render(n);
    if n < 0 {
      assert forall i :: 1 <= i < |s| ==> s[i] == Int32Text.Decimal(-n)[i - 1];
    }
  }

  /** "host:port" with a colon-free host splits into the host and the port text. */
  lemma SplitHostPort(host: string, port: int)
    requires ':' !in host
    ensures Split(host + ":" + Int32Text.Render(port), ':') == [host, Int32Text.Render(port)]
  {
    var digits := Int32Text.Render(port);
    RenderHasNoColon(port);
    assert host + ":" + digits == host + [':'] + digits;
    SplitCons(host, digits, ':');
    SplitNone(digits, ':');
  }

  /** "host:port" with a 32-bit port gives back that host and port. */
  lemma HostAndPortRoundTrip(host: string, port: int, defaultPort: int)
    requires ':' !in host && Int32Text.Int32Min <= port <= Int32Text.Int32Max
    ensures ParseHostAndPort(host + ":" + Int32Text.Render(port), defaultPort) == Ok(Endpoint(host, port))
  {
    SplitHostPort(host, port);
    Int32Text.ParseRender(port);
  }

  /** A port beyond the 32-bit range is an overflow error. */
  lemma PortOutOfRangeRejected(host: string, port: int, defaultPort: int)
    requires ':' !in host && (port < Int32Text.Int32Min || Int32Text.Int32Max < port)
    ensures ParseHostAndPort(host + ":" + Int32Text.Render(port), defaultPort) == Err(PortOverflow)
  {
    SplitHostPort(host, port);
    Int32Text.ParseRenderOverflow(port);
  }

  /** A URL with two colons (an IPv6 literal, say) is refused as a format error. */
  lemma TwoColonsRejected(url: string, defaultPort: int, i: nat, j: nat)
    requires i < j < |url| && url[i] == ':' && url[j] == ':'
    ensures ParseHostAndPort(url, defaultPort) == Err(InvalidHostPort)
  {
    SplitHasThreePieces(url, ':');
  }

  // ---------------------------------------------------------------------------------------------
  // The two handlers

  /**
   * HandleHttpsRequestAsync up to the relay: the target from the URL on port 443, the upstream
   * connection, then the "200 Connection Established" reply to the client.
   */
  function HandleHttps(url: string, connect: Endpoint -> bool): (o: Outcome)
    ensures o.Tunnelled? || o.Failed?
    ensures o.Tunnelled? <==> ParseHostAndPort(url, DefaultHttpsPort).Ok? && connect(ParseHostAndPort(url, DefaultHttpsPort).value)
  {
    match ParseHostAndPort(url, DefaultHttpsPort)
    case Err(e) => Failed(e)
    case Ok(target) =>
      if connect(target) then Tunnelled(target, AsciiEncode(ConnectionEstablished)) else Failed(ConnectFailed)
  }

  /**
   * A tunnel goes to the host and port of the URL, and its reply is the status line followed by
   * CR LF CR LF, the blank line that ends a response head.
   */
  lemma TunnelReplyEndsHead(url: string, connect: Endpoint -> bool)
    requires HandleHttps(url, connect).Tunnelled?
    ensures HandleHttps(url, connect).reply == AsciiEncode(StatusEstablished) + [13, 10, 13, 10]
    ensures HandleHttps(url, connect).target == ParseHostAndPort(url, DefaultHttpsPort).value
  {
    EncodeAppend(StatusEstablished, HttpEndOfHeader);
  }

  /**
   * HandleHttpRequestAsync up to the relay: the URL is parsed as a URI, the target is its host and
   * port, and once connected the request rebuilt with the URI's path and query is sent.
   */
  function HandleHttp(buffer: seq<byte>, bytesRead: nat, request: RequestLine,
                      parseUri: string -> Option<Uri>, connect: Endpoint -> bool): (o: Outcome)
    requires bytesRead <= |buffer|
    ensures o.Forwarded? || o.Failed?
  {
    match parseUri(request.url)
    case None => Failed(InvalidUri)
    case Some(uri) =>
      var target := Endpoint(uri.host, uri.port);
      if !connect(target) then Failed(ConnectFailed)
      else match RebuildRequest(buffer, bytesRead, request.httpMethod, uri.pathAndQuery, request.version)
        case Err(e) => Failed(e)
        case Ok(bytes) => Forwarded(target, bytes)
  }

  /**
   * The request sent upstream is the rebuilt request for the URI's target, and it is sent exactly
   * when the URI parses, the connection succeeds and the first read has a header block.
   */
  lemma ForwardedIsRebuilt(buffer: seq<byte>, bytesRead: nat, request: RequestLine,
                           parseUri: string -> Option<Uri>, connect: Endpoint -> bool)
    requires bytesRead <= |buffer|
    ensures HandleHttp(buffer, bytesRead, request, parseUri, connect).Forwarded? <==>
      parseUri(request.url).Some?
      && connect(Endpoint(parseUri(request.url).value.host, parseUri(request.url).value.port))
      && RebuildRequest(buffer, bytesRead, request.httpMethod, parseUri(request.url).value.pathAndQuery, request.version).Ok?
    ensures HandleHttp(buffer, bytesRead, request, parseUri, connect).Forwarded? ==>
      HandleHttp(buffer, bytesRead, request, parseUri, connect).request
        == RebuildRequest(buffer, bytesRead, request.httpMethod, parseUri(request.url).value.pathAndQuery, request.version).value
  {
  }

  /** HandleClientAsync end to end: the dispatch decision, then the chosen handler. */
  function Serve(filter: Option<string -> bool>, buffer: seq<byte>, bytesRead: nat,
                 parseUri: string -> Option<Uri>, connect: Endpoint -> bool): Outcome
    requires bytesRead <= |buffer|
  {
    match Dispatch(filter, buffer, bytesRead)
    case Tunnel(url) => HandleHttps(url, connect)
    case Forward(request) => HandleHttp(buffer, bytesRead, request, parseUri, connect)
    case NotHttp => Closed(NotHttp)
    case Dropped(e) => Closed(Dropped(e))
    case Filtered => Closed(Filtered)
  }

  /**
   * Nothing is sent anywhere unless the first read is recognised, its request line parses and
   * the filter (when set) accepts its URL: a refused URL is closed before any connection.
   */
  lemma ServeSendsOnlyAccepted(filter: Option<string -> bool>, buffer: seq<byte>, bytesRead: nat,
                               parseUri: string -> Option<Uri>, connect: Endpoint -> bool)
    requires bytesRead <= |buffer|
    ensures var o := Serve(filter, buffer, bytesRead, parseUri, connect);
      (o.Tunnelled? || o.Forwarded?) ==>
        IsEitherHttpOrHttps(buffer, bytesRead) && ParseRequestLine(buffer, bytesRead).Ok?
        && (filter.None? || filter.value(ParseRequestLine(buffer, bytesRead).value.url))
    ensures IsEitherHttpOrHttps(buffer, bytesRead) && ParseRequestLine(buffer, bytesRead).Ok?
      && filter.Some? && !filter.value(ParseRequestLine(buffer, bytesRead).value.url)
      ==> Serve(filter, buffer, bytesRead, parseUri, connect) == Closed(Filtered)
  {
  }

  /** Tunnels come only from CONNECT requests and forwarded requests only from other methods. */
  lemma ServeByMethod(filter: Option<string -> bool>, buffer: seq<byte>, bytesRead: nat,
                      parseUri: string -> Option<Uri>, connect: Endpoint -> bool)
    requires bytesRead <= |buffer|
    ensures Serve(filter, buffer, bytesRead, parseUri, connect).Tunnelled? ==>
      ParseRequestLine(buffer, bytesRead).Ok? && IsHttps(ParseRequestLine(buffer, bytesRead).value.httpMethod)
    ensures Serve(filter, buffer, bytesRead, parseUri, connect).Forwarded? ==>
      ParseRequestLine(buffer, bytesRead).Ok? && !IsHttps(ParseRequestLine(buffer, bytesRead).value.httpMethod)
  {
  }

  /** HandleHttpRequestAsync with BuildHttpRequest working on the rented buffer. */
  method HandleHttpRequest(buffer: array<byte>, bytesRead: nat, request: RequestLine,
                           parseUri: string -> Option<Uri>, connect: Endpoint -> bool) returns (o: Outcome)
    requires bytesRead <= buffer.Length
    ensures o == HandleHttp(buffer[..], bytesRead, request, parseUri, connect)
  {
    var uri := parseUri(request.url);
    if uri.None? {
      return Failed(InvalidUri);
    }
    var target := Endpoint(uri.value.host, uri.value.port);
    if !connect(target) {
      return Failed(ConnectFailed);
    }
    var httpRequest := BuildHttpRequest(buffer, bytesRead, request.httpMethod, uri.value.pathAndQuery, request.version);
    if httpRequest.Err? {
      return Failed(httpRequest.error);
    }
    return Forwarded(target, httpRequest.value[..]);
  }

  // ---------------------------------------------------------------------------------------------
  // The server object

  /**
   * ProxyServer: the listener's port, the cancellation source's state, whether the listener was
   * stopped, whether the object was disposed, and the URL filter.
   */
  class ProxyServer {
    const port: int
    var cancelled: bool        // cts.IsCancellationRequested
    var listenerStopped: bool  // listener.Stop() has run
    var ctsDisposed: bool      // cts.Dispose() has run
    var disposed: bool
    var filter: Option<string -> bool>

    /** Cancelling and stopping the listener go together; disposal implies both. */
    ghost predicate Valid()
      reads this
    {
      (cancelled <==> listenerStopped) && (disposed <==> ctsDisposed) && (disposed ==> cancelled)
    }

    constructor(port: int)
      ensures Valid() && this.port == port
      ensures !cancelled && !disposed && filter.None?
    {
      this.port := port;
      cancelled := false;
      listenerStopped := false;
      ctsDisposed := false;
      disposed := false;
      filter := None;
    }

    /** Stop: cancel and stop the listener, once; a second call does nothing. */
    method Stop()
      requires Valid()
      modifies this
      ensures Valid() && cancelled && listenerStopped
      ensures old(cancelled) ==> unchanged(this)
      ensures disposed == old(disposed) && ctsDisposed == old(ctsDisposed) && filter == old(filter)
    {
      if cancelled {
        return;
      }
      cancelled := true;
      listenerStopped := true;
    }

    /** UseFilter: replaces the filter. */
    method UseFilter(f: string -> bool)
      modifies this
      ensures filter == Some(f)
      ensures cancelled == old(cancelled) && listenerStopped == old(listenerStopped)
      ensures disposed == old(disposed) && ctsDisposed == old(ctsDisposed)
    {
      filter := Some(f);
    }

    /** Dispose: stop, then dispose the cancellation source, once; a second call does nothing. */
    method Dispose()
      requires Valid()
      modifies this
      ensures Valid() && disposed && ctsDisposed && cancelled && listenerStopped
      ensures old(disposed) ==> unchanged(this)
      ensures filter == old(filter)
    {
      if disposed {
        return;
      }
      Stop();
      ctsDisposed := true;
      disposed := true;
    }

    /**
     * HandleClientAsync on a first read already in the rented buffer: the gate, the request line,
     * the filter, then the CONNECT or HTTP handler.
     */
    method HandleClient(buffer: array<byte>, bytesRead: nat, parseUri: string -> Option<Uri>,
                        connect: Endpoint -> bool) returns (o: Outcome)
      requires bytesRead <= buffer.Length
      ensures o == Serve(filter, buffer[..], bytesRead, parseUri, connect)
    {
      if !IsEitherHttpOrHttps(buffer[..], bytesRead) {
        return Closed(NotHttp);
      }
      var parsed := ParseRequestLine(buffer[..], bytesRead);
      if parsed.Err? {
        return Closed(Dropped(parsed.error));
      }
      var request := parsed.value;
      if filter.Some? && !filter.value(request.url) {
        return Closed(Filtered);
      }
      if IsHttps(request.httpMethod) {
        o := HandleHttps(request.url, connect);
      } else {
        o := HandleHttpRequest(buffer, bytesRead, request, parseUri, connect);
      }
    }
  }
}
