/**
 * Guardian.Proxy.ProxyServer: an HTTP/1.1 forward proxy. The first read of a connection is
 * recognised as an HTTP request by its method, its request line is parsed, the URL is offered to
 * the filter, and the request is either tunnelled (CONNECT) or rewritten and forwarded.
 *
 * Only the decisions and the byte-level rewriting are modelled: the first read is an input byte
 * sequence, name resolution and connecting are an input predicate, and the relay is left out.
 */
module Proxy {
  import opened Wrappers
  import opened Text

  /** One octet read from or written to a socket. */
  type byte = b: int | 0 <= b < 256

  const HttpEndOfHeader: string := "\r\n\r\n"
  const HttpsConnectMethod: string := "CONNECT"
  const KnownHttpMethods: seq<string> := ["GET", "POST", "PUT", "DELETE", "HEAD", "OPTIONS", "PATCH"]
  /** Every method name the proxy recognises. */
  const RequestMethods: seq<string> := KnownHttpMethods + [HttpsConnectMethod]
  const BufferSize: int := 512
  const DefaultHttpsPort: int := 443
  const StatusEstablished: string := "HTTP/1.1 200 Connection Established"
  /** The reply to a CONNECT once the upstream connection exists. */
  const ConnectionEstablished: string := StatusEstablished + HttpEndOfHeader
  const QuestionMark: byte := 63

  /** The exceptions that end a connection: the handler catches them and closes it. */
  datatype ProxyError =
    | InvalidRequestLine   // InvalidOperationException from ParseRequestLine
    | SliceOutOfRange      // ArgumentOutOfRangeException from the header slice
    | InvalidHostPort      // FormatException from ParseHostAndPort: more than one ':'
    | PortFormat           // FormatException from int.Parse of the port
    | PortOverflow         // OverflowException from int.Parse of the port
    | InvalidUri           // UriFormatException from new Uri(url)
    | ConnectFailed        // SocketException from new TcpClient(host, port)

  // ---------------------------------------------------------------------------------------------
  // Encoding.ASCII

  /** Decoding one byte: bytes above 0x7F become '?'. */
  function AsciiChar(b: byte): (c: char)
    ensures c as int < 128
    ensures b < 128 ==> c as int == b
    ensures b >= 128 ==> c == '?'
  {
    if b < 128 then b as char else '?'
  }

  /** Encoding one char: chars above U+007F become '?'. */
  function AsciiByte(c: char): (b: byte)
    ensures b < 128
    ensures c as int < 128 ==> b == c as int
    ensures c as int >= 128 ==> b == QuestionMark
  {
    if c as int < 128 then c as int else QuestionMark
  }

  /** Encoding.ASCII.GetString. */
  function AsciiDecode(bs: seq<byte>): (s: string)
    ensures |s| == |bs|
  {
    seq(|bs|, i requires 0 <= i < |bs| => AsciiChar(bs[i]))
  }

  /** Encoding.ASCII.GetBytes. */
  function AsciiEncode(s: string): (bs: seq<byte>)
    ensures |bs| == |s|
  {
    seq(|s|, i requires 0 <= i < |s| => AsciiByte(s[i]))
  }

  predicate IsAscii(s: string)
  {
    forall i :: 0 <= i < |s| ==> s[i] as int < 128
  }

  predicate IsAsciiBytes(bs: seq<byte>)
  {
    forall i :: 0 <= i < |bs| ==> bs[i] < 128
  }

  /** Decoding yields ASCII text, and decoding then encoding keeps ASCII bytes and turns the rest into '?'. */
  lemma EncodeDecode(bs: seq<byte>)
    ensures IsAscii(AsciiDecode(bs))
    ensures forall i :: 0 <= i < |bs| ==>
      AsciiEncode(AsciiDecode(bs))[i] == (if bs[i] < 128 then bs[i] else QuestionMark)
    ensures IsAsciiBytes(bs) ==> AsciiEncode(AsciiDecode(bs)) == bs
  {
  }

  /** ASCII text survives encoding then decoding. */
  lemma DecodeEncode(s: string)
    requires IsAscii(s)
    ensures AsciiDecode(AsciiEncode(s)) == s
  {
  }

  lemma DecodeAppend(a: seq<byte>, b: seq<byte>)
    ensures AsciiDecode(a + b) == AsciiDecode(a) + AsciiDecode(b)
  {
  }

  lemma EncodeAppend(a: string, b: string)
    ensures AsciiEncode(a + b) == AsciiEncode(a) + AsciiEncode(b)
  {
  }

  // ---------------------------------------------------------------------------------------------
  // StringComparison.OrdinalIgnoreCase on ASCII text

  function FoldChar(c: char): (u: char)
    ensures 'a' <= u <= 'z' ==> false
    ensures 'A' <= c <= 'Z' || 'a' <= c <= 'z' <==> 'A' <= u <= 'Z'
  {
    if 'a' <= c <= 'z' then (c as int - 32) as char else c
  }

  predicate EqualsIgnoreCase(a: string, b: string)
  {
    |a| == |b| && forall i :: 0 <= i < |a| ==> FoldChar(a[i]) == FoldChar(b[i])
  }

  predicate StartsWithIgnoreCase(s: string, p: string)
  {
    |p| <= |s| && EqualsIgnoreCase(s[..|p|], p)
  }

  // ---------------------------------------------------------------------------------------------
  // Recognising a request

  /** Enumerable.Any over the method names: whether data starts with one of them. */
  function StartsWithAny(data: string, methods: seq<string>): (r: bool)
    ensures r <==> exists i :: 0 <= i < |methods| && StartsWithIgnoreCase(data, methods[i])
  {
    if |methods| == 0 then false
    else StartsWithIgnoreCase(data, methods[0]) || StartsWithAny(data, methods[1..])
  }

  /** IsEitherHttpOrHttps: the decoded first read starts, ignoring case, with a known method or CONNECT. */
  function IsEitherHttpOrHttps(buffer: seq<byte>, bytesRead: nat): (r: bool)
    requires bytesRead <= |buffer|
    ensures r <==> exists m :: m in RequestMethods && StartsWithIgnoreCase(AsciiDecode(buffer[..bytesRead]), m)
  {
    var data := AsciiDecode(buffer[..bytesRead]);
    StartsWithAny(data, KnownHttpMethods) || StartsWithIgnoreCase(data, HttpsConnectMethod)
  }

  /** Every method name has at least three letters, so a shorter first read is never recognised. */
  lemma RecognitionNeedsThreeBytes(buffer: seq<byte>, bytesRead: nat)
    requires bytesRead <= |buffer| && IsEitherHttpOrHttps(buffer, bytesRead)
    ensures bytesRead >= 3
  {
    var m :| m in RequestMethods
      && StartsWithIgnoreCase(AsciiDecode(buffer[..bytesRead]), m);
    assert |m| >= 3;
  }

  /** The method test is a prefix test on any letter case: "GETX" and "get" pass. */
  lemma RecognitionIsPrefixTest()
    ensures IsEitherHttpOrHttps([71, 69, 84, 88], 4)
    ensures IsEitherHttpOrHttps([103, 101, 116], 3)
  {
    assert StartsWithIgnoreCase(AsciiDecode([71, 69, 84, 88]), "GET");
    assert StartsWithIgnoreCase(AsciiDecode([103, 101, 116]), "GET");
  }

  /** The method must come first: "XGET" is not recognised. */
  lemma RecognitionIsAnchored()
    ensures !IsEitherHttpOrHttps([88, 71, 69, 84], 4)
  {
    var data := AsciiDecode([88, 71, 69, 84]);
    assert FoldChar(data[0]) == 'X';
    forall m | m in RequestMethods
      ensures !StartsWithIgnoreCase(data, m)
    {
      assert FoldChar(m[0]) != 'X';
    }
  }

  /** The text up to its first CR LF, or all of it when there is none. */
  function FirstLine(data: string): (line: string)
    ensures |line| <= |data| && line == data[..|line|]
    ensures forall i: nat :: i < |line| ==> !MatchAt(data, "\r\n", i)
    ensures |line| == |data| || MatchAt(data, "\r\n", |line|)
  {
    var eol := IndexOfText(data, "\r\n");
    if eol >= 0 then data[..eol] else data
  }

  /** GetRequestLine: the first line of the decoded first read. */
  function GetRequestLine(buffer: seq<byte>, bytesRead: nat): string
    requires bytesRead <= |buffer|
  {
    FirstLine(AsciiDecode(buffer[..bytesRead]))
  }

  // ---------------------------------------------------------------------------------------------
  // String.Split with one separator (empty pieces kept)

  function Split(s: string, c: char): (parts: seq<string>)
    ensures |parts| >= 1
    ensures forall k :: 0 <= k < |parts| ==> c !in parts[k]
    decreases |s|
  {
    var i := IndexOfChar(s, c);
    if i < 0 then [s] else [s[..i]] + Split(s[i + 1..], c)
  }

  /** String.Join: the pieces with c between each two. */
  function Join(parts: seq<string>, c: char): string
    requires |parts| >= 1
  {
    if |parts| == 1 then parts[0] else parts[0] + [c] + Join(parts[1..], c)
  }

  /** Join of a first piece and more pieces. */
  lemma JoinCons(p: string, rest: seq<string>, c: char)
    requires |rest| >= 1
    ensures Join([p] + rest, c) == p + [c] + Join(rest, c)
  {
    assert ([p] + rest)[1..] == rest;
  }

  /** Joining the pieces of a split gives back the text. */
  lemma {:induction false} JoinSplit(s: string, c: char)
    ensures Join(Split(s, c), c) == s
    decreases |s|
  {
    var i := IndexOfChar(s, c);
    if i >= 0 {
      JoinSplit(s[i + 1..], c);
      JoinCons(s[..i], Split(s[i + 1..], c), c);
      assert s == s[..i] + [c] + s[i + 1..];
    }
  }

  /** Text without c is one piece. */
  lemma SplitNone(s: string, c: char)
    requires c !in s
    ensures Split(s, c) == [s]
  {
  }

  /** A first piece without c splits off at the c that follows it. */
  lemma SplitCons(p: string, rest: string, c: char)
    requires c !in p
    ensures Split(p + [c] + rest, c) == [p] + Split(rest, c)
  {
    var s := p + [c] + rest;
    assert s[|p|] == c;
    assert s[..|p|] == p;
    assert s[|p| + 1..] == rest;
  }

  /** Splitting pieces joined by c, none holding c, gives back the pieces. */
  lemma {:induction false} SplitJoin(parts: seq<string>, c: char)
    requires |parts| >= 1 && forall k :: 0 <= k < |parts| ==> c !in parts[k]
    ensures Split(Join(parts, c), c) == parts
  {
    if |parts| == 1 {
      SplitNone(parts[0], c);
    } else {
      SplitCons(parts[0], Join(parts[1..], c), c);
      SplitJoin(parts[1..], c);
      assert parts == [parts[0]] + parts[1..];
    }
  }

  /** A split has at least three pieces exactly when the text holds c at two positions. */
  lemma SplitHasThreePieces(s: string, c: char)
    ensures |Split(s, c)| >= 3 <==> exists i, j :: 0 <= i < j < |s| && s[i] == c && s[j] == c
  {
    var i := IndexOfChar(s, c);
    if i >= 0 {
      var t := s[i + 1..];
      var k := IndexOfChar(t, c);
      if k >= 0 {
        assert s[i + 1 + k] == t[k];
      } else {
        forall i', j' | 0 <= i' < j' < |s| && s[i'] == c
          ensures s[j'] != c
        {
          assert i <= i';
          assert s[j'] == t[j' - i - 1];
        }
      }
    }
  }

  // ---------------------------------------------------------------------------------------------
  // The request line

  datatype RequestLine = RequestLine(httpMethod: string, url: string, version: string)

  /** ParseRequestLine on the text of the line: its first three space-separated pieces. */
  function ParseLine(line: string): (r: Result<RequestLine, ProxyError>)
    ensures r.Err? <==> !(exists i, j :: 0 <= i < j < |line| && line[i] == ' ' && line[j] == ' ')
    ensures r.Ok? ==> ' ' !in r.value.httpMethod && ' ' !in r.value.url && ' ' !in r.value.version
  {
    var segments := Split(line, ' ');
    SplitHasThreePieces(line, ' ');
    if |segments| < 3 then Err(InvalidRequestLine)
    else Ok(RequestLine(segments[0], segments[1], segments[2]))
  }

  /** ParseRequestLine: the request line of the first read, split on single spaces. */
  function ParseRequestLine(buffer: seq<byte>, bytesRead: nat): Result<RequestLine, ProxyError>
    requires bytesRead <= |buffer|
  {
    ParseLine(GetRequestLine(buffer, bytesRead))
  }

  /** Two space-free words in front of a tail split off as the first two pieces. */
  lemma SplitTwoWords(verb: string, url: string, tail: string)
    requires ' ' !in verb && ' ' !in url
    ensures Split(verb + " " + url + " " + tail, ' ') == [verb, url] + Split(tail, ' ')
  {
    assert verb + " " + url + " " + tail == verb + [' '] + (url + [' '] + tail);
    SplitCons(url, tail, ' ');
    SplitCons(verb, url + [' '] + tail, ' ');
  }

  /** A line of three space-free words parses to those words. */
  lemma ParseWellFormedLine(verb: string, url: string, version: string)
    requires ' ' !in verb && ' ' !in url && ' ' !in version
    ensures ParseLine(verb + " " + url + " " + version) == Ok(RequestLine(verb, url, version))
  {
    SplitTwoWords(verb, url, version);
    SplitNone(version, ' ');
  }

  /** Whatever follows the third word after a space is ignored. */
  lemma ParseIgnoresExtraWords(verb: string, url: string, version: string, extra: string)
    requires ' ' !in verb && ' ' !in url && ' ' !in version
    ensures ParseLine(verb + " " + url + " " + version + " " + extra) == Ok(RequestLine(verb, url, version))
  {
    assert verb + " " + url + " " + version + " " + extra == verb + " " + url + " " + (version + " " + extra);
    SplitTwoWords(verb, url, version + " " + extra);
    assert version + " " + extra == version + [' '] + extra;
    SplitCons(version, extra, ' ');
  }

  /** IsHttps: the method is CONNECT in any letter case. */
  predicate IsHttps(verb: string)
  {
    EqualsIgnoreCase(verb, HttpsConnectMethod)
  }

  /** The first piece of a split is a prefix of the text. */
  lemma SplitFirstIsPrefix(s: string, c: char)
    ensures |Split(s, c)[0]| <= |s| && Split(s, c)[0] == s[..|Split(s, c)[0]|]
  {
  }

  /**
   * A line whose method is one of the recognised names (in any case) comes from a first read that
   * IsEitherHttpOrHttps accepts: in particular every CONNECT request line passes the gate.
   */
  lemma KnownMethodIsRecognised(buffer: seq<byte>, bytesRead: nat, m: string)
    requires bytesRead <= |buffer| && ParseRequestLine(buffer, bytesRead).Ok?
    requires m in RequestMethods && EqualsIgnoreCase(ParseRequestLine(buffer, bytesRead).value.httpMethod, m)
    ensures IsEitherHttpOrHttps(buffer, bytesRead)
  {
    var data := AsciiDecode(buffer[..bytesRead]);
    var line := GetRequestLine(buffer, bytesRead);
    var verb := ParseRequestLine(buffer, bytesRead).value.httpMethod;
    SplitFirstIsPrefix(line, ' ');
    assert data[..|verb|] == verb;
    assert StartsWithIgnoreCase(data, m);
  }

  // ---------------------------------------------------------------------------------------------
  // The connection handler's decision

  /** What HandleClientAsync does with a connection, judged from its first read. */
  datatype Action =
    | NotHttp                      // not recognised: closed
    | Dropped(error: ProxyError)   // the request line does not parse: closed
    | Filtered                     // the filter refuses the URL: closed
    | Tunnel(target: string)       // CONNECT: HandleHttpsRequestAsync
    | Forward(request: RequestLine) // any other method: HandleHttpRequestAsync

  /** The decision HandleClientAsync takes, with Filter as an optional predicate on URLs. */
  function Dispatch(filter: Option<string -> bool>, buffer: seq<byte>, bytesRead: nat): (a: Action)
    requires bytesRead <= |buffer|
  {
    if !IsEitherHttpOrHttps(buffer, bytesRead) then NotHttp
    else match ParseRequestLine(buffer, bytesRead)
      case Err(e) => Dropped(e)
      case Ok(request) =>
        if filter.Some? && !filter.value(request.url) then Filtered
        else if IsHttps(request.httpMethod) then Tunnel(request.url)
        else Forward(request)
  }

  /** Handled means passed on to one of the two handlers. */
  predicate Handled(a: Action)
  {
    a.Tunnel? || a.Forward?
  }

  /**
   * A request reaches a handler exactly when it is recognised, its request line parses, and
   * either no filter is set or the filter accepts its URL; with a filter that refuses, neither
   * handler runs.
   */
  lemma DispatchHandlesIffAccepted(filter: Option<string -> bool>, buffer: seq<byte>, bytesRead: nat)
    requires bytesRead <= |buffer|
    ensures var parsed := ParseRequestLine(buffer, bytesRead);
      Handled(Dispatch(filter, buffer, bytesRead)) <==>
        IsEitherHttpOrHttps(buffer, bytesRead) && parsed.Ok?
        && (filter.None? || filter.value(parsed.value.url))
  {
  }

  /** The CONNECT method, in any case, selects the tunnel to the request's URL; every other method is forwarded. */
  lemma DispatchByMethod(filter: Option<string -> bool>, buffer: seq<byte>, bytesRead: nat)
    requires bytesRead <= |buffer| && Handled(Dispatch(filter, buffer, bytesRead))
    ensures var request := ParseRequestLine(buffer, bytesRead).value;
      && (Dispatch(filter, buffer, bytesRead).Tunnel? <==> IsHttps(request.httpMethod))
      && (Dispatch(filter, buffer, bytesRead).Tunnel? ==> Dispatch(filter, buffer, bytesRead).target == request.url)
      && (Dispatch(filter, buffer, bytesRead).Forward? ==> Dispatch(filter, buffer, bytesRead).request == request)
  {
  }

  // ---------------------------------------------------------------------------------------------
  // Rewriting a plain HTTP request (BuildHttpRequest)

  /** A request head: a request line, CR LF, the header lines, and the blank line that ends them. */
  function Head(line: string, headers: string): string
  {
    line + "\r\n" + headers + HttpEndOfHeader
  }

  /**
   * BuildHttpRequest's result: a head made of the request line rebuilt from the method, the URL's
   * path and query and the version, and the header lines of the first read (after its first '\n'
   * up to its first blank line), followed by the bytes after that blank line as they were read.
   */
  function RebuildRequest(buffer: seq<byte>, bytesRead: nat, verb: string, pathAndQuery: string, version: string)
    : (r: Result<seq<byte>, ProxyError>)
    requires bytesRead <= |buffer|
    ensures r.Err? ==> r.error == SliceOutOfRange
  {
    var original := AsciiDecode(buffer[..bytesRead]);
    var eohIndex := IndexOfText(original, HttpEndOfHeader);
    var start := IndexOfChar(original, '\n') + 1;
    if eohIndex < 0 || start > eohIndex then Err(SliceOutOfRange)
    else Ok(AsciiEncode(Head(verb + " " + pathAndQuery + " " + version, original[start..eohIndex]))
            + buffer[eohIndex + 4..bytesRead])
  }

  /** RebuildRequest when its searches show no blank line, or no header line before it. */
  lemma RebuildFailsAt(buffer: seq<byte>, bytesRead: nat, verb: string, pathAndQuery: string, version: string,
                       original: string, start: int, eoh: int)
    requires bytesRead <= |buffer| && original == AsciiDecode(buffer[..bytesRead])
    requires IndexOfText(original, HttpEndOfHeader) == eoh && IndexOfChar(original, '\n') + 1 == start
    requires eoh < 0 || start > eoh
    ensures RebuildRequest(buffer, bytesRead, verb, pathAndQuery, version) == Err(SliceOutOfRange)
  {
  }

  /** RebuildRequest when its searches find a header line and a blank line after it. */
  lemma RebuildAt(buffer: seq<byte>, bytesRead: nat, verb: string, pathAndQuery: string, version: string,
                  original: string, start: int, eoh: int)
    requires bytesRead <= |buffer| && original == AsciiDecode(buffer[..bytesRead])
    requires IndexOfText(original, HttpEndOfHeader) == eoh && IndexOfChar(original, '\n') + 1 == start
    requires 0 <= start <= eoh
    ensures eoh + 4 <= bytesRead
    ensures RebuildRequest(buffer, bytesRead, verb, pathAndQuery, version)
      == Ok(AsciiEncode(Head(verb + " " + pathAndQuery + " " + version, original[start..eoh])) + buffer[eoh + 4..bytesRead])
  {
  }

  /**
   * Whatever the first read holds, a rebuilt request starts with the new request line and ends
   * with the bytes that followed the first blank line.
   */
  lemma RebuildShape(buffer: seq<byte>, bytesRead: nat, verb: string, pathAndQuery: string, version: string)
    requires bytesRead <= |buffer| && RebuildRequest(buffer, bytesRead, verb, pathAndQuery, version).Ok?
    ensures var r := RebuildRequest(buffer, bytesRead, verb, pathAndQuery, version).value;
      var eoh := IndexOfText(AsciiDecode(buffer[..bytesRead]), HttpEndOfHeader);
      && eoh >= 0
      && AsciiEncode(verb + " " + pathAndQuery + " " + version + "\r\n") <= r
      && |r| >= bytesRead - (eoh + 4)
      && r[|r| - (bytesRead - (eoh + 4))..] == buffer[eoh + 4..bytesRead]
  {
    var original := AsciiDecode(buffer[..bytesRead]);
    var eoh := IndexOfText(original, HttpEndOfHeader);
    var start := IndexOfChar(original, '\n') + 1;
    var requestLine := verb + " " + pathAndQuery + " " + version + "\r\n";
    var rest := original[start..eoh] + HttpEndOfHeader;
    assert Head(verb + " " + pathAndQuery + " " + version, original[start..eoh]) == requestLine + rest;
    EncodeAppend(requestLine, rest);
  }

  /** Where the first '\n' is when the text starts with a line free of '\n' and a CR LF. */
  lemma FirstNewlineEndsLine(line: string, rest: string)
    requires '\n' !in line
    ensures IndexOfChar(line + "\r\n" + rest, '\n') == |line| + 1
  {
    var s := line + "\r\n" + rest;
    var r := IndexOfChar(s, '\n');
    assert s[|line| + 1] == '\n';
  }

  /** Searches in the decoded first read that land inside its ASCII head land where they do in the head. */
  lemma SearchesInHead(buffer: seq<byte>, bytesRead: nat, head: string, body: seq<byte>, original: string,
                       newline: nat, e: nat)
    requires bytesRead <= |buffer| && IsAscii(head)
    requires buffer[..bytesRead] == AsciiEncode(head) + body && original == AsciiDecode(buffer[..bytesRead])
    requires IndexOfText(head, HttpEndOfHeader) == e && IndexOfChar(head, '\n') == newline && e + 4 == |head|
    ensures IndexOfText(original, HttpEndOfHeader) == e && IndexOfChar(original, '\n') == newline
    ensures original[..|head|] == head && buffer[e + 4..bytesRead] == body
  {
    DecodeAppend(AsciiEncode(head), body);
    DecodeEncode(head);
    assert original == head + AsciiDecode(body);
    IndexOfTextInPrefix(head, AsciiDecode(body), HttpEndOfHeader);
    IndexOfCharInPrefix(head, AsciiDecode(body), '\n');
  }

  /**
   * The rewrite of a well-formed request: when the first read is the ASCII text of a head (whose
   * blank line is the first one) followed by any body bytes, the rebuilt request is the head with
   * the new request line and the same header lines, followed by the same body bytes.
   */
  lemma RebuildReplacesRequestLine(buffer: seq<byte>, bytesRead: nat, verb: string, pathAndQuery: string,
                                   version: string, line: string, headers: string, body: seq<byte>)
    requires bytesRead <= |buffer|
    requires '\n' !in line && IsAscii(Head(line, headers))
    requires IndexOfText(Head(line, headers), HttpEndOfHeader) == |line| + 2 + |headers|
    requires buffer[..bytesRead] == AsciiEncode(Head(line, headers)) + body
    ensures RebuildRequest(buffer, bytesRead, verb, pathAndQuery, version)
      == Ok(AsciiEncode(Head(verb + " " + pathAndQuery + " " + version, headers)) + body)
  {
    var head := Head(line, headers);
    var original := AsciiDecode(buffer[..bytesRead]);
    var e := |line| + 2 + |headers|;
    assert head == line + "\r\n" + (headers + HttpEndOfHeader);
    FirstNewlineEndsLine(line, headers + HttpEndOfHeader);
    SearchesInHead(buffer, bytesRead, head, body, original, |line| + 1, e);
    RebuildAt(buffer, bytesRead, verb, pathAndQuery, version, original, |line| + 2, e);
    SliceInPrefix(original, head, |line| + 2, e);
    assert head[|line| + 2..e] == headers;
  }

  /**
   * A first read whose request line is directly followed by the blank line (no header lines)
   * cannot be rewritten: the header slice would start after its end.
   */
  lemma RebuildRejectsBareRequestLine(buffer: seq<byte>, bytesRead: nat, verb: string, pathAndQuery: string,
                                      version: string, line: string, rest: string)
    requires bytesRead <= |buffer| && '\n' !in line
    requires AsciiDecode(buffer[..bytesRead]) == line + HttpEndOfHeader + rest
    ensures RebuildRequest(buffer, bytesRead, verb, pathAndQuery, version) == Err(SliceOutOfRange)
  {
    var original := line + HttpEndOfHeader + rest;
    assert MatchAt(original, HttpEndOfHeader, |line|);
    assert original == line + "\r\n" + ("\r\n" + rest);
    FirstNewlineEndsLine(line, "\r\n" + rest);
  }

  /** A first read without a blank line cannot be rewritten. */
  lemma RebuildNeedsBlankLine(buffer: seq<byte>, bytesRead: nat, verb: string, pathAndQuery: string, version: string)
    requires bytesRead <= |buffer|
    requires forall i: nat :: !MatchAt(AsciiDecode(buffer[..bytesRead]), HttpEndOfHeader, i)
    ensures RebuildRequest(buffer, bytesRead, verb, pathAndQuery, version) == Err(SliceOutOfRange)
  {
  }

  /** Buffer.BlockCopy of all of src into dst at offset 0. */
  method CopyPrefix(src: seq<byte>, dst: array<byte>)
    requires |src| <= dst.Length
    modifies dst
    ensures dst[..|src|] == src && dst[|src|..] == old(dst[|src|..])
  {
    for k := 0 to |src|
      invariant dst[..k] == src[..k] && dst[|src|..] == old(dst[|src|..])
    {
      dst[k] := src[k];
    }
  }

  /** Memory.CopyTo: src[from..to] into dst at offset at. */
  method CopySlice(src: array<byte>, from: nat, to: nat, dst: array<byte>, at: nat)
    requires from <= to <= src.Length && at + (to - from) <= dst.Length && src != dst
    modifies dst
    ensures dst[..at] == old(dst[..at]) && dst[at..at + (to - from)] == src[from..to]
  {
    for k := 0 to to - from
      invariant dst[..at] == old(dst[..at]) && dst[at..at + k] == src[from..from + k]
    {
      dst[at + k] := src[from + k];
    }
  }

  /** The combined buffer: head followed by src[from..to], in a fresh array. */
  method Combine(head: seq<byte>, src: array<byte>, from: nat, to: nat) returns (combined: array<byte>)
    requires from <= to <= src.Length
    ensures fresh(combined) && combined[..] == head + src[from..to]
  {
    combined := new byte[|head| + (to - from)];
    CopyPrefix(head, combined);
    CopySlice(src, from, to, combined, |head|);
    assert combined[..] == combined[..|head|] + combined[|head|..];
  }

  /** BuildHttpRequest: the rewritten request in a fresh array, or the exception the header slice raises. */
  method BuildHttpRequest(buffer: array<byte>, bytesRead: nat, verb: string, pathAndQuery: string, version: string)
    returns (r: Result<array<byte>, ProxyError>)
    requires bytesRead <= buffer.Length
    ensures r.Err? <==> RebuildRequest(buffer[..], bytesRead, verb, pathAndQuery, version).Err?
    ensures r.Err? ==> r.error == SliceOutOfRange
    ensures r.Ok? ==> fresh(r.value) && r.value[..] == RebuildRequest(buffer[..], bytesRead, verb, pathAndQuery, version).value
  {
    var originalRequest := AsciiDecode(buffer[..bytesRead]);
    var eohIndex := IndexOfText(originalRequest, HttpEndOfHeader);
    var start := IndexOfChar(originalRequest, '\n') + 1;
    assert buffer[..][..bytesRead] == buffer[..bytesRead];
    if eohIndex < 0 || start > eohIndex {
      RebuildFailsAt(buffer[..], bytesRead, verb, pathAndQuery, version, originalRequest, start, eohIndex);
      return Err(SliceOutOfRange);
    }
    RebuildAt(buffer[..], bytesRead, verb, pathAndQuery, version, originalRequest, start, eohIndex);
    var headers := originalRequest[start..eohIndex];
    var modifiedRequest := Head(verb + " " + pathAndQuery + " " + version, headers);
    var combined := Combine(AsciiEncode(modifiedRequest), buffer, eohIndex + 4, bytesRead);
    assert buffer[eohIndex + 4..bytesRead] == buffer[..][eohIndex + 4..bytesRead];
    return Ok(combined);
  }
}
