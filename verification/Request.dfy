/** Forwarding one request from a client to a service: parser_reuqest_line, parser_headers of
    the request, and the part of http_do that prints head and body for the service. */
module Request {
  import opened Wrappers
  import opened Strings
  import opened BlockBuffer
  import opened SocketMemory
  import opened Transfer
  import opened Headers
  import Chunked
  import Closing
  import Response
  import RequestLine

  const END := Closing.END

  // ---------- reading a request ----------

  /** The first line of a head, without its line end. */
  function LineText(m: string, t: RequestLine.Target, v: string): string {
    m + " " + RequestLine.PrintTarget(t) + " " + "HTTP/" + v
  }

  function HeadOf(m: string, t: RequestLine.Target, v: string, fields: seq<Field>): string {
    Response.Head(LineText(m, t, v), fields)
  }

  /** A stream that starts with this request's head. */
  ghost predicate Starts(s: string, m: string, t: RequestLine.Target, v: string, fields: seq<Field>) {
    RequestLine.ValidLine(m, t, v) && WellFormed(fields) && HeadOf(m, t, v, fields) <= s
  }

  /** A stream with a head whose header block is that of these fields. */
  ghost predicate Blocks(s: string, fields: seq<Field>) {
    && Find(s, END).Some? && AreReadable(fields) && LineLength(s) + 2 <= FirstEnd(s, END)
    && s[LineLength(s)..FirstEnd(s, END) - 2] == Print(fields)
  }

  lemma LineToken(m: string, t: RequestLine.Target, v: string)
    requires RequestLine.ValidLine(m, t, v)
    ensures '\r' !in LineText(m, t, v) && LineText(m, t, v) + CRLF == RequestLine.PrintLine(m, t, v)
  {
    RequestLine.TargetBytes(m, t, v);
    hide RequestLine.PrintTarget, RequestLine.ValidLine;
  }

  lemma StartFacts(s: string, m: string, t: RequestLine.Target, v: string, fields: seq<Field>)
    requires Starts(s, m, t, v, fields)
    ensures var head := HeadOf(m, t, v, fields);
            && Find(s, END).Some? && FirstEnd(s, END) == |head|
            && s[..|head|] == head && RequestLine.PrintLine(m, t, v) <= head
            && |head| == LineLength(s) + |Print(fields)| + 2 && LineLength(s) == |LineText(m, t, v)| + 2
            && s[LineLength(s)..][..|Print(fields)|] == Print(fields) && Blocks(s, fields)
  {
    hide Find, FindFrom, FirstEnd, LineLength, LineText, Print, WellFormed, RequestLine.ValidLine, RequestLine.PrintLine;
    var head := HeadOf(m, t, v, fields);
    var tail := s[|head|..];
    assert s == head + tail;
    LineToken(m, t, v);
    Response.HeadFacts(LineText(m, t, v), fields, tail);
    ValidIsReadable(fields);
    PartOf(s, LineLength(s), |Print(fields)|);
  }

  lemma PartOf(s: string, l: nat, n: nat)
    requires l + n <= |s|
    ensures s[l..][..n] == s[l..l + n]
  {
  }

  /** parser_reuqest_line on the client's connection. When the line is refused, nothing is
      consumed; a head that never ends is dropped when the peer closes. */
  method ReadRequestLine(ss: Memory, ghost m: string, ghost t: RequestLine.Target, ghost v: string, ghost fields: seq<Field>)
    returns (r: Option<RequestLine.Request>, headerEnd: nat)
    requires ss.Valid() && ss.Unread() == "" && ss.blocks == [] && ss.Fits()
    modifies ss`blocks, ss`readIndex, ss`writeIndex, ss`readOk, ss`incoming
    ensures ss.Valid() && ss.Fits() && Response.Lone(ss.blocks, old(ss.readIndex))
    ensures r.Some? ==>
              && Find(old(ss.incoming), END).Some?
              && var s, e, l := old(ss.incoming), FirstEnd(old(ss.incoming), END), LineLength(old(ss.incoming));
                 && l + headerEnd + 2 == e <= |s| && ss.Stream() == s[l..] && ss.readIndex == old(ss.readIndex) + l
                 && headerEnd + 2 <= |ss.Unread()| < headerEnd + 2 + ss.most && Lines(s[l..l + headerEnd])
                 && RequestLine.Means(s[..l], r.value)
    ensures Find(old(ss.incoming), END).Some? ==>
              && LineLength(old(ss.incoming)) <= |old(ss.incoming)|
              && (r.Some? <==> RequestLine.Accepts(old(ss.incoming)[..LineLength(old(ss.incoming))]))
    ensures r == None ==> ss.readIndex == old(ss.readIndex)
    ensures r == None && Find(old(ss.incoming), END).Some? ==> ss.Stream() == old(ss.incoming)
    ensures Starts(old(ss.incoming), m, t, v, fields) ==> r == Some(RequestLine.Meaning(m, t, v))
  {
    hide Buffer.Valid, Buffer.Unread, Find, FindFrom, Load, Remove, Lines, LineLength, Response.Lone;
    hide Starts, HeadOf, RequestLine.PrintLine, RequestLine.Meaning, RequestLine.ValidLine, RequestLine.Means, RequestLine.Accepts, CanRead;
    ghost var s, line := ss.incoming, RequestLine.PrintLine(m, t, v);
    assert ss.Stream() == s;
    var msg := ss.AsyncLoadUntil(END);
    Response.LoneBlock(old(ss.State()), ss.Unread(), ss.State());
    ghost var tail := if line <= msg then msg[|line|..] else "";
    LineAhead(s, m, t, v, fields, msg);
    LineOf(s, msg);
    if msg != "" { ReadExactly(s, END, ss.most, ss.Unread()); }
    r := RequestLine.ParseLine(msg, m, t, v, tail);
    if r == None {
      return None, 0;
    }
    var rm := |Take(msg, LineLength(msg))|;
    Response.BlockUnread(s, |msg|, LineLength(msg), ss.Unread(), ss.incoming);
    Response.RemoveLone(ss.State(), rm, old(ss.readIndex));
    Response.RemoveIndex(ss.State(), rm);
    var _ := ss.RemoveSome(rm);
    headerEnd := Wrap(|msg| - rm - 2);
  }

  lemma LineAhead(s: string, m: string, t: RequestLine.Target, v: string, fields: seq<Field>, msg: string)
    ensures Starts(s, m, t, v, fields) ==> Find(s, END).Some? && FirstEnd(s, END) <= |s| && RequestLine.ValidLine(m, t, v)
    ensures var line := RequestLine.PrintLine(m, t, v);
            Starts(s, m, t, v, fields) && msg == s[..FirstEnd(s, END)] ==> line <= msg && msg == line + msg[|line|..]
  {
    hide Find, FindFrom, FirstEnd, Starts, HeadOf, RequestLine.PrintLine, RequestLine.ValidLine, LineText;
    if Starts(s, m, t, v, fields) {
      StartFacts(s, m, t, v, fields);
      StartValid(s, m, t, v, fields);
    }
  }

  lemma LineOf(s: string, msg: string)
    requires msg == if Find(s, END).Some? then s[..FirstEnd(s, END)] else ""
    ensures Find(s, END).Some? ==> LineLength(s) <= |s| && Take(msg, LineLength(msg)) == s[..LineLength(s)]
  {
    hide Find, FindFrom, FirstEnd, LineLength;
    if Find(s, END).Some? { Response.SplitHead(s, FirstEnd(s, END)); }
  }

  lemma StartValid(s: string, m: string, t: RequestLine.Target, v: string, fields: seq<Field>)
    requires Starts(s, m, t, v, fields)
    ensures RequestLine.ValidLine(m, t, v) && WellFormed(fields) && HeadOf(m, t, v, fields) <= s
  {
  }

  /** What get_some shows of the header block once the request line is gone. */
  lemma BlockShown(buf: Buffer, at: nat, s: string, headerEnd: nat, fields: seq<Field>)
    requires buf.Valid() && buf.Reachable() && Response.Lone(buf.blocks, at) && buf.readIndex == at + LineLength(s)
    requires Find(s, END).Some? && LineLength(s) + headerEnd + 2 == FirstEnd(s, END) <= |s|
    requires buf.Unread() <= s[LineLength(s)..] && headerEnd + 2 <= |buf.Unread()|
    requires Lines(s[LineLength(s)..LineLength(s) + headerEnd])
    ensures Lines(Take(Visible(buf), headerEnd))
    ensures Blocks(s, fields) ==>
              if Visible(buf) == "" then Shown(at, LineLength(s), fields) == map[]
              else AreReadable(fields) && Take(Visible(buf), headerEnd) == Print(fields)
                   && Shown(at, LineLength(s), fields) == HeaderMap(map[], fields)
    ensures forall h :: Response.HeadReads(s, at, h) <==> BlockReads(Take(Visible(buf), headerEnd), h)
  {
    hide Buffer.Valid, Buffer.Reachable, Buffer.Unread, Find, FindFrom, FirstEnd, Visible, Hits, Response.Lone;
    hide Print, AreReadable, HeaderMap, LineLength, Lines, Take, LineText, Response.HeadReads;
    Response.LoneShows(buf, at);
    Response.EmptyBlock(headerEnd);
    Response.EmptyTake(headerEnd);
    Response.HeaderBlock(s, LineLength(s), headerEnd, buf.Unread());
    Response.ReadsIs(s, at, LineLength(s), headerEnd, Visible(buf));
  }

  datatype HttpRequest = HttpRequest(line: RequestLine.Request, headers: map<string, string>, chunked: bool, bodySize: nat)

  /** The head of a request: its line, then its header block, of which get_some may show
      nothing. */
  method ReadRequest(ss: Memory, ghost m: string, ghost t: RequestLine.Target, ghost v: string, ghost fields: seq<Field>)
    returns (req: Option<HttpRequest>)
    requires ss.Valid() && ss.Unread() == "" && ss.blocks == [] && ss.Fits()
    modifies ss`blocks, ss`readIndex, ss`writeIndex, ss`readOk, ss`incoming
    ensures ss.Valid() && ss.Fits() && Response.Lone(ss.blocks, old(ss.readIndex))
    ensures req.Some? ==>
              && Find(old(ss.incoming), END).Some?
              && var s, e := old(ss.incoming), FirstEnd(old(ss.incoming), END);
                 && e <= |s| && ss.Stream() == s[e..] && ss.readIndex == old(ss.readIndex) + e
                 && req.value.chunked == Response.IsChunked(req.value.headers)
                 && req.value.bodySize == Response.BodyLength(req.value.headers)
                 && |ss.Unread()| < ss.most && LineLength(s) <= |s| && RequestLine.Means(s[..LineLength(s)], req.value.line)
    ensures Find(old(ss.incoming), END).Some? ==>
              && LineLength(old(ss.incoming)) <= |old(ss.incoming)|
              && (req.Some? <==> RequestLine.Accepts(old(ss.incoming)[..LineLength(old(ss.incoming))])
                                 && exists h :: Response.HeadReads(old(ss.incoming), old(ss.readIndex), h))
              && (req.Some? ==> Response.HeadReads(old(ss.incoming), old(ss.readIndex), req.value.headers))
    ensures Blocks(old(ss.incoming), fields) ==>
              && LineLength(old(ss.incoming)) <= |old(ss.incoming)|
              && (req.Some? <==> RequestLine.Accepts(old(ss.incoming)[..LineLength(old(ss.incoming))]))
              && (req.Some? ==> req.value.headers == Shown(old(ss.readIndex), LineLength(old(ss.incoming)), fields))
    ensures Starts(old(ss.incoming), m, t, v, fields) ==>
              && req.Some? && req.value.line == RequestLine.Meaning(m, t, v)
              && req.value.headers == Shown(old(ss.readIndex), |LineText(m, t, v)| + 2, fields)
              && FirstEnd(old(ss.incoming), END) == |HeadOf(m, t, v, fields)|
  {
    hide Buffer.Valid, Buffer.Unread, Find, FindFrom, FirstEnd, Wrap, OccursAt, Starts, HeadOf, RequestLine.Meaning, Visible, Hits;
    hide Print, AreReadable, HeaderMap, Response.IsChunked, Response.BodyLength, LineLength, Lines, Take, LineText;
    hide Response.HeadReads, BlockReads, Blocks, Shown, RequestLine.Means, RequestLine.Accepts;
    ghost var s, at := ss.incoming, ss.readIndex;
    BlockStart(s, m, t, v, fields);
    var line, headerEnd := ReadRequestLine(ss, m, t, v, fields);
    if line == None {
      return None;
    }
    Response.UnreadOnly(ss);
    Response.UnreadIsPrefix(ss);
    Response.WrapHere(headerEnd + 2);
    BlockShown(ss.State(), at, s, headerEnd, fields);
    ghost var u := ss.Unread();
    var head := Response.ParserHeaders(ss, headerEnd, fields);
    if head == None {
      return None;
    }
    Response.Rejoin(s, LineLength(s), headerEnd + 2);
    UnreadLeft(u, ss.Unread(), ss.incoming, headerEnd + 2);
    return Some(HttpRequest(line.value, head.value.headers, head.value.chunked, head.value.bodySize));
  }

  lemma BlockStart(s: string, m: string, t: RequestLine.Target, v: string, fields: seq<Field>)
    ensures Blocks(s, fields) ==> Find(s, END).Some?
    ensures Starts(s, m, t, v, fields) ==>
              Blocks(s, fields) && FirstEnd(s, END) == |HeadOf(m, t, v, fields)| && LineLength(s) == |LineText(m, t, v)| + 2
  {
    hide Find, FindFrom, FirstEnd, Starts, HeadOf, LineLength, LineText, Print, WellFormed;
    if Starts(s, m, t, v, fields) { StartFacts(s, m, t, v, fields); }
  }

  lemma UnreadLeft(before: string, after: string, incoming: string, n: nat)
    requires n <= |before| && after + incoming == (before + incoming)[n..]
    ensures |after| == |before| - n
  {
  }

  /** The headers read from a head at position `at` with a line of `l` bytes. */
  function Shown(at: nat, l: nat, fields: seq<Field>): map<string, string> {
    if Hits(at, at + l) then HeaderMap(map[], fields) else map[]
  }

  // ---------- printing it for the service ----------

  const PROXY := "proxy-connection"
  const HOST := "host"
  const HOST_NAME := "Host"

  /** Every key once. The source goes through an unordered map, so the order is any. */
  ghost predicate Enumerates(order: seq<string>, keys: set<string>) {
    && (forall k :: k in keys <==> k in order)
    && forall i, j :: 0 <= i < j < |order| ==> order[i] != order[j]
  }

  function Values(headers: map<string, string>, order: seq<string>): string {
    if order == [] then "" else
      var k := order[|order| - 1];
      Values(headers, order[..|order| - 1]) + if k in headers then headers[k] else ""
  }

  /** The head sent on: the origin-form line, every field but two, and the host. */
  function HeadSent(line: RequestLine.Request, host: string, headers: map<string, string>, order: seq<string>): string {
    RequestLine.Reprint(line) + Values(headers, order) + (HOST_NAME + COLON + host) + (CRLF + CRLF)
  }

  /** The text is such a head, whichever order the fields come in. */
  ghost predicate IsHeadSent(text: string, line: RequestLine.Request, host: string, headers: map<string, string>) {
    exists order :: Enumerates(order, headers.Keys - {PROXY, HOST}) && text == HeadSent(line, host, headers, order)
  }

  lemma EnumeratesMore(order: seq<string>, keys: set<string>, key: string)
    requires Enumerates(order, keys) && key !in keys
    ensures Enumerates(order + [key], keys + {key})
  {
  }

  lemma ValuesMore(headers: map<string, string>, order: seq<string>, key: string)
    requires key in headers
    ensures Values(headers, order + [key]) == Values(headers, order) + headers[key]
  {
    assert (order + [key])[..|order|] == order;
  }

  method PrintHead(line: RequestLine.Request, host: string, headers: map<string, string>)
    returns (text: string)
    ensures IsHeadSent(text, line, host, headers) && text != ""
  {
    hide RequestLine.Reprint, Enumerates, Values;
    ghost var order := [];
    text := RequestLine.Reprint(line);
    ghost var start, keys := text, headers.Keys - {PROXY, HOST};
    var left := headers.Keys - {PROXY, HOST};
    NothingPrinted(headers, keys - left);
    assert text == start + Values(headers, order);
    while left != {}
      invariant text == start + Values(headers, order) && left <= keys
      invariant Enumerates(order, keys - left)
      decreases |left|
    {
      var key: string :| key in left;
      EnumeratesMore(order, keys - left, key);
      ValuesMore(headers, order, key);
      assert keys - left + {key} == keys - (left - {key});
      assert start + Values(headers, order) + headers[key] == start + (Values(headers, order) + headers[key]);
      text := text + headers[key];
      left := left - {key};
      order := order + [key];
    }
    assert keys - left == keys;
    text := text + (HOST_NAME + COLON + host);
    text := text + (CRLF + CRLF);
  }

  lemma NothingPrinted(headers: map<string, string>, keys: set<string>)
    requires keys == {}
    ensures Values(headers, []) == "" && Enumerates([], keys)
  {
  }

  // ---------- what the service reads ----------

  /** Where an entry of the header map comes from. */
  lemma {:induction false} HeaderFrom(h: map<string, string>, fields: seq<Field>, key: string) returns (i: int)
    requires key in HeaderMap(h, fields)
    ensures -1 <= i < |fields|
    ensures i == -1 ==> key in h && HeaderMap(h, fields)[key] == h[key]
    ensures i >= 0 ==> ToLower(fields[i].name) == key && HeaderMap(h, fields)[key] == fields[i].FirstLine()
    decreases |fields|
  {
    hide ToLower;
    if fields == [] {
      i := -1;
    } else {
      var h' := h[ToLower(fields[0].name) := fields[0].FirstLine()];
      i := HeaderFrom(h', fields[1..], key);
      i := if i >= 0 then i + 1 else if ToLower(fields[0].name) == key then 0 else -1;
    }
  }

  lemma PrintSnoc(fields: seq<Field>, f: Field)
    requires f.folds == []
    ensures Print(fields + [f]) == Print(fields) + f.FirstLine()
  {
    hide Print;
    PrintMore(fields, f);
  }

  lemma PrintStep(fields: seq<Field>)
    requires fields != []
    ensures Print(fields) == PrintField(fields[0]) + Print(fields[1..])
  {
  }

  /** The values sent are a header block, which maps each key sent to its value. */
  lemma {:induction false} ValuesAreFields(fields: seq<Field>, order: seq<string>) returns (sent: seq<Field>)
    requires WellFormed(fields)
    requires forall k :: k in order ==> k in HeaderMap(map[], fields)
    requires forall i, j :: 0 <= i < j < |order| ==> order[i] != order[j]
    ensures WellFormed(sent) && Print(sent) == Values(HeaderMap(map[], fields), order)
    ensures HeaderMap(map[], sent).Keys == set k | k in order
    ensures forall k :: k in order ==> HeaderMap(map[], sent)[k] == HeaderMap(map[], fields)[k]
  {
    hide ToLower, HeaderMap, Print;
    if order == [] {
      sent := [];
      NoFields();
    } else {
      var n := |order| - 1;
      var before := ValuesAreFields(fields, order[..n]);
      var i := HeaderFrom(map[], fields, order[n]);
      var f := Field(fields[i].name, fields[i].value, []);
      assert fields[i].Valid() && f.Valid();
      sent := before + [f];
      HeaderMapMore(map[], before, f);
      PrintSnoc(before, f);
      assert forall k :: k in order <==> k in order[..n] || k == order[n];
    }
  }

  lemma NoFields()
    ensures Print([]) == "" && HeaderMap(map[], []) == map[]
  {
  }

  lemma HostName(host: string)
    requires '\r' !in host
    ensures Field(HOST_NAME, host, []).Valid() && ToLower(HOST_NAME) == HOST
    ensures Field(HOST_NAME, host, []).FirstLine() == HOST_NAME + COLON + host + CRLF
  {
    var h := ToLower(HOST_NAME);
    assert h[0] == 'h' && h[1] == 'o' && h[2] == 's' && h[3] == 't';
  }

  /** The fields a service should see: the client's, without the two, and the host. */
  function ForService(headers: map<string, string>, host: string): map<string, string> {
    (headers - {PROXY, HOST})[HOST := HOST_NAME + COLON + host + CRLF]
  }

  /** The service is told the endpoint asked for exactly when that has no port. */
  lemma HostExactly(h: map<string, string>, t: RequestLine.Target)
    requires t.Absolute?
    ensures ForService(h, t.host)[HOST] == HOST_NAME + COLON + RequestLine.PrintEndpoint(t.host, t.port) + CRLF <==> t.port.None?
  {
    if t.port.Some? {
      assert |HOST_NAME + COLON + RequestLine.PrintEndpoint(t.host, t.port) + CRLF| > |HOST_NAME + COLON + t.host + CRLF|;
    }
  }

  /** A request for port 8080 of which the service is told the host alone. */
  lemma PortNotTold(h: map<string, string>)
    ensures var t := RequestLine.Absolute("a", Some("8080"), "/");
            RequestLine.ValidLine("GET", t, "1.1") && ForService(h, t.host)[HOST] == "Host: a" + CRLF
  {
    var version, port := "1.1", "8080";
    assert version[1..2] == "." && !OccursAt(version, ".", 0) by { assert version[0..1][0] == '1'; }
    FindIs(version, ".", 1);
    assert version[..1] == "1" && version[2..] == "1";
    assert port[..3] == "808" && port[..3][..2] == "80" && port[..3][..2][..1] == "8";
    assert DecValue("8") == 8 && DecValue("80") == 80 && DecValue("808") == 808;
  }

  /** What is sent is a head again: of the same request in origin form, with those fields. */
  lemma SentIsHead(m: string, t: RequestLine.Target, v: string, fields: seq<Field>, host: string, order: seq<string>)
    returns (sent: seq<Field>)
    requires RequestLine.ValidLine(m, t, v) && t.Absolute? && WellFormed(fields) && '\r' !in host
    requires Enumerates(order, HeaderMap(map[], fields).Keys - {PROXY, HOST})
    ensures var r := RequestLine.Meaning(m, t, v); var o := RequestLine.Origin(r.url);
            && RequestLine.ValidLine(m, o, v) && WellFormed(sent)
            && HeadSent(r, host, HeaderMap(map[], fields), order) == HeadOf(m, o, v, sent)
            && HeaderMap(map[], sent) == ForService(HeaderMap(map[], fields), host)
  {
    hide ToLower, HeaderMap, Print, LineText, RequestLine.ValidLine, RequestLine.PrintLine, RequestLine.Meaning;
    hide RequestLine.Reprint;
    var h, f := HeaderMap(map[], fields), Field(HOST_NAME, host, []);
    var r := RequestLine.Meaning(m, t, v);
    var o := RequestLine.Origin(r.url);
    RequestLine.ReprintIsOrigin(m, t, v);
    LineToken(m, o, v);
    var kept := ValuesAreFields(fields, order);
    HostName(host);
    HeaderMapMore(map[], kept, f);
    PrintSnoc(kept, f);
    sent := kept + [f];
    HeadText(LineText(m, o, v), Values(h, order), HOST_NAME + COLON + host);
    assert HeaderMap(map[], kept) == h - {PROXY, HOST};
  }

  lemma HeadText(line: string, values: string, host: string)
    ensures line + CRLF + values + host + (CRLF + CRLF) == line + CRLF + (values + (host + CRLF)) + CRLF
  {
  }

  // ---------- forwarding ----------

  /** Refused: the head or a chunk is not accepted. NotProxied: a tunnel, or a request to the
      proxy itself. Unending: as for responses. */
  datatype ForwardEnd = Complete | Refused | NotProxied | Unending

  function Told(end: Response.RelayEnd): ForwardEnd {
    match end
    case Complete => Complete
    case Malformed => Refused
    case Unending => Unending
  }

  /** The body, once the head is sent: in chunks, of a length, or none. */
  method ForwardBody(ss: Memory, w: Memory, req: HttpRequest, ghost chunks: seq<Chunked.Chunk>, ghost rest: string)
    returns (end: Response.RelayEnd, ghost text: string, ghost r: Chunked.ChunkOutcome)
    requires ss != w && ss.Valid() && ss.Fits()
    modifies ss`blocks, ss`readIndex, ss`writeIndex, ss`readOk, ss`incoming, w`outgoing
    ensures ss.Valid() && w.outgoing == old(w.outgoing) + text
    ensures Response.BodyGoes(Response.HttpResponse("", req.headers, req.chunked, req.bodySize), false, chunks, rest,
                              old(ss.Unread()), old(ss.incoming), old(ss.readIndex), Visible(old(ss.State())),
                              end, r, text, ss.Stream(), ss.Unread())
  {
    hide Buffer.Valid, Buffer.Unread, Chunked.Promise, Visible;
    r := Chunked.Failed(0);
    Response.UnreadOnly(ss);
    if req.chunked {
      var how;
      how, text := Chunked.TransferChunk(ss, w, chunks, rest);
      r := how;
      end := Response.EndOf(how);
    } else if req.bodySize > 0 {
      var t;
      t, text := TransferMem(ss, w, req.bodySize);
      end := if t.Done? then Response.Complete else Response.RelayEnd.Unending;
    } else {
      end, text := Response.Complete, "";
    }
  }

  /** The host the service is told: the one the configuration puts there, if any. */
  function HostFor(other: string, host: string): string {
    if other != "" then other else host
  }

  /** A line that is accepted and asks the proxy for something elsewhere. */
  ghost predicate AsksProxy(line: string, r: RequestLine.Request) {
    RequestLine.Means(line, r) && r.host != "" && r.methodStr != RequestLine.CONNECT
  }

  /** The head sent for whatever head the stream starts with: what its line is read as, and the
      fields that are shown of its block. */
  ghost predicate HeadFor(s: string, other: string, fields: seq<Field>, head: string) {
    && Find(s, END).Some? && LineLength(s) <= |s|
    && exists r, h :: AsksProxy(s[..LineLength(s)], r) && IsHeadSent(head, r, HostFor(other, r.host), h)
                      && Response.HeadReads(s, 0, h) && (Blocks(s, fields) ==> h == Shown(0, LineLength(s), fields))
  }

  /** The line and the fields read. */
  ghost predicate ReadsAsRequest(s: string) {
    Find(s, END).Some? && RequestLine.Accepts(Take(s, LineLength(s))) && exists h :: Response.HeadReads(s, 0, h)
  }

  /** The head is accepted: it reads as a request for something elsewhere, and its fields read. */
  ghost predicate Proxied(s: string) {
    && Find(s, END).Some? && (exists r :: AsksProxy(Take(s, LineLength(s)), r))
    && exists h :: Response.HeadReads(s, 0, h)
  }

  /** Where a connection to the service is asked for. */
  datatype Dest = Dest(host: string, port: string)

  /** Everything up to the body: reads the client's head, prints one for the service. */
  method ForwardHead(ss: Memory, w: Memory, other: string, ghost m: string, ghost t: RequestLine.Target, ghost v: string,
                     ghost fields: seq<Field>)
    returns (req: Option<HttpRequest>, end: ForwardEnd, dest: Option<Dest>, ghost head: string)
    requires ss != w && ss.Valid() && |ss.incoming| <= SIZE_RANGE - INT_LIMIT
    modifies ss, w
    ensures ss.Valid() && ss.Fits() && Response.Lone(ss.blocks, 0) && w.outgoing == old(w.outgoing) + head
    ensures req == None <==> head == ""
    ensures req == None <==> dest == None
    ensures dest.Some? ==>
              && LineLength(old(ss.incoming)) <= |old(ss.incoming)|
              && forall r :: AsksProxy(old(ss.incoming)[..LineLength(old(ss.incoming))], r) ==>
                               dest == Some(Dest(HostFor(other, r.host), r.port))
    ensures Starts(old(ss.incoming), m, t, v, fields) && t.Absolute? ==>
              dest == Some(Dest(if other == "" then t.host else other, if t.port.Some? then t.port.value else "80"))
    ensures req.Some? ==>
              && Find(old(ss.incoming), END).Some?
              && var e := FirstEnd(old(ss.incoming), END);
                 e <= |old(ss.incoming)| && ss.Stream() == old(ss.incoming)[e..] && ss.readIndex == e && |ss.Unread()| < ss.most
    ensures req.Some? ==>
              && req.value.chunked == Response.IsChunked(req.value.headers)
              && req.value.bodySize == Response.BodyLength(req.value.headers)
    ensures head != "" ==> HeadFor(old(ss.incoming), other, fields, head)
    ensures head != "" <==> Proxied(old(ss.incoming))
    ensures head == "" ==> end == if ReadsAsRequest(old(ss.incoming)) then NotProxied else Refused
    ensures Starts(old(ss.incoming), m, t, v, fields) && t.Absolute? ==>
              && req.Some? && req.value.headers == Shown(0, |LineText(m, t, v)| + 2, fields)
              && IsHeadSent(head, RequestLine.Meaning(m, t, v), HostFor(other, t.host), req.value.headers)
              && FirstEnd(old(ss.incoming), END) == |HeadOf(m, t, v, fields)|
  {
    hide Buffer.Valid, Buffer.Unread, Find, FindFrom, FirstEnd, Starts, HeadOf, Shown, Blocks, RequestLine.Means, RequestLine.Accepts;
    hide IsHeadSent, HeaderMap, Response.IsChunked, Response.BodyLength, RequestLine.Meaning, LineText, LineLength, Take;
    hide Response.HeadReads;
    ss.Reset();
    ghost var s := ss.incoming;
    head, end, dest := "", Complete, None;
    assert w.outgoing == w.outgoing + head;
    if Starts(s, m, t, v, fields) && t.Absolute? {
      StartValid(s, m, t, v, fields);
      MeaningIs(m, t, v);
    }
    AskedAs(s);
    req := ReadRequest(ss, m, t, v, fields);
    if req == None {
      end := Refused;
      return;
    }
    var line := req.value.line;
    if line.methodStr == RequestLine.CONNECT || line.host == "" {
      OneMeaning(s[..LineLength(s)], line);
      req, end := None, NotProxied;
      return;
    }
    var text := PrintHead(line, HostFor(other, line.host), req.value.headers);
    dest := Some(Dest(HostFor(other, line.host), line.port));
    w.AsyncWriteAll(text);
    head := text;
    assert AsksProxy(s[..LineLength(s)], line);
    OneMeaning(s[..LineLength(s)], line);
  }

  lemma AskedAs(s: string)
    ensures Find(s, END).Some? ==> LineLength(s) <= |s| && Take(s, LineLength(s)) == s[..LineLength(s)]
    ensures (exists r :: AsksProxy(Take(s, LineLength(s)), r)) ==> RequestLine.Accepts(Take(s, LineLength(s)))
  {
    hide Find, FindFrom;
    if Find(s, END).Some? { Response.SplitHead(s, FirstEnd(s, END)); }
  }

  /** A line has one meaning. */
  lemma OneMeaning(line: string, r: RequestLine.Request)
    requires RequestLine.Means(line, r)
    ensures forall r' :: RequestLine.Means(line, r') ==> r' == r
  {
    hide RequestLine.IsLine, RequestLine.ReadAs;
    var m, scheme, endpoint, path, v :| RequestLine.IsLine(line, m, scheme, endpoint, path, v);
  }

  /** What becomes of a well-formed request to the proxy, a head and then `after`: the head
      sent to the service, and what is sent of the body (Response.BodySent). */
  ghost predicate Sends(m: string, t: RequestLine.Target, v: string, fields: seq<Field>, host: string, after: string, came: nat,
                        chunks: seq<Chunked.Chunk>, rest: string, end: ForwardEnd, head: string, text: string, left: string, u: string)
  {
    var h := Shown(0, |LineText(m, t, v)| + 2, fields);
    && IsHeadSent(head, RequestLine.Meaning(m, t, v), host, h)
    && exists how :: end == Told(how)
                     && Response.BodySent(0, |HeadOf(m, t, v, fields)|, came, h, false, after, chunks, rest, how, text, left, u)
  }

  /** What becomes of the stream `s`: the end, the head sent, what is sent of the body, and what
      is left; `came` bytes were read with the head. (m, t, v, fields and after are any reading
      of the stream as a head and what follows, chunks and rest of that.) */
  ghost predicate Goes(s: string, most: Amount, other: string, m: string, t: RequestLine.Target, v: string, fields: seq<Field>,
                       after: string, chunks: seq<Chunked.Chunk>, rest: string,
                       end: ForwardEnd, head: string, text: string, came: nat, left: string, u: string)
  {
    // without a head, or when it is refused, nothing is sent
    && (Find(s, END).None? || head == "" ==> head + text == "")
    // whatever head is accepted, that head as it is read; below 2 GiB, whatever arrives, and
    // then the bytes after it
    && (head != "" ==> HeadFor(s, other, fields, head) && Response.CanCome(s, most, came))
    && (head != "" <==> Proxied(s))
    && (head == "" ==> end == if ReadsAsRequest(s) then NotProxied else Refused)
    && (head != "" && |s| <= INT_LIMIT ==> FirstEnd(s, END) <= |s| && text <= s[FirstEnd(s, END)..])
    // a well-formed request to the proxy
    && (Starts(s, m, t, v, fields) && t.Absolute? && s == HeadOf(m, t, v, fields) + after ==>
          Response.CanCome(s, most, came)
          && Sends(m, t, v, fields, HostFor(other, t.host), after, came, chunks, rest, end, head, text, left, u))
  }

  /** One request, from the client's connection `ss` to the service's connection `w`; `text` is
      what is sent of the body. What the buffer still holds is dropped first. `other` is the
      host the configuration puts in place of the one asked for. */
  method ForwardRequest(ss: Memory, w: Memory, other: string, ghost m: string, ghost t: RequestLine.Target, ghost v: string,
                        ghost fields: seq<Field>, ghost after: string, ghost chunks: seq<Chunked.Chunk>, ghost rest: string)
    returns (end: ForwardEnd, dest: Option<Dest>, ghost head: string, ghost text: string, ghost came: nat)
    requires ss != w && ss.Valid() && |ss.incoming| <= SIZE_RANGE - INT_LIMIT
    modifies ss, w
    ensures ss.Valid() && w.outgoing == old(w.outgoing) + head + text
    ensures Goes(old(ss.incoming), ss.most, other, m, t, v, fields, after, chunks, rest, end, head, text, came, ss.Stream(), ss.Unread())
    // the connection it goes to
    ensures dest == None <==> head == ""
    ensures dest.Some? ==>
              && LineLength(old(ss.incoming)) <= |old(ss.incoming)|
              && forall r :: AsksProxy(old(ss.incoming)[..LineLength(old(ss.incoming))], r) ==>
                               dest == Some(Dest(HostFor(other, r.host), r.port))
    ensures Starts(old(ss.incoming), m, t, v, fields) && t.Absolute? ==>
              dest == Some(Dest(if other == "" then t.host else other, if t.port.Some? then t.port.value else "80"))
  {
    hide Buffer.Valid, Buffer.Unread, Find, FindFrom, FirstEnd, Starts, HeadOf, Shown, Visible, Hits, Blocks, HeadFor, AsksProxy;
    hide IsHeadSent, HeaderMap, Response.IsChunked, Response.BodyLength, RequestLine.Meaning, Response.BodyGoes, Response.BodySent;
    hide Response.CanCome, LineText, LineLength, Take, Proxied, ReadsAsRequest;
    ghost var s, before := ss.incoming, w.outgoing;
    text, came := "", 0;
    if s == HeadOf(m, t, v, fields) + after { AfterText(s, HeadOf(m, t, v, fields), after); }
    var req;
    req, end, dest, head := ForwardHead(ss, w, other, m, t, v, fields);
    assert before + head + "" == before + head;
    if req == None {
      return;
    }
    Response.UnreadOnly(ss);
    Response.LoneShows(ss.State(), 0);
    ghost var unread, incoming, at, shown := ss.Unread(), ss.incoming, ss.readIndex, Visible(ss.State());
    came := |unread|;
    Response.ComesExactly(s, ss.most, came);
    ghost var r;
    var how;
    how, text, r := ForwardBody(ss, w, req.value, chunks, rest);
    end := Told(how);
    ghost var resp := Response.HttpResponse("", req.value.headers, req.value.chunked, req.value.bodySize);
    Response.BodySentIs(0, resp, false, chunks, rest, unread, incoming, at, shown, how, r, text, ss.Stream(), ss.Unread());
    BodyInOrder(resp, chunks, rest, unread, incoming, at, shown, how, r, text, ss.Stream(), ss.Unread());
  }

  lemma BodyInOrder(resp: Response.HttpResponse, chunks: seq<Chunked.Chunk>, rest: string, unread: string, incoming: string, at: nat,
                    v: string, end: Response.RelayEnd, r: Chunked.ChunkOutcome, text: string, left: string, u: string)
    requires Response.BodyGoes(resp, false, chunks, rest, unread, incoming, at, v, end, r, text, left, u)
    requires v == if Hits(0, at) then unread else ""
    ensures at + |unread + incoming| <= INT_LIMIT ==> text <= unread + incoming
  {
    hide Chunked.CanRelay;
    if at + |unread + incoming| <= INT_LIMIT && at < INT_LIMIT { HitsBelow(0, at); }
    assert "" + incoming == incoming;
  }

  lemma AfterText(s: string, head: string, after: string)
    requires s == head + after
    ensures |head| <= |s| && s[|head|..] == after
  {
  }

  lemma MeaningIs(m: string, t: RequestLine.Target, v: string)
    requires RequestLine.ValidLine(m, t, v) && t.Absolute?
    ensures var r := RequestLine.Meaning(m, t, v);
            r.methodStr == m != RequestLine.CONNECT && r.host == t.host != ""
            && r.port == if t.port.Some? then t.port.value else "80"
  {
  }

  // ---------- from the client to the service ----------

  lemma ReadAs(o: RequestLine.Target, m: string, v: string)
    requires o.Origin?
    ensures var r := RequestLine.Meaning(m, o, v);
            r.methodStr == m && r.url == o.path && r.version == "HTTP/" + v && r.host == ""
  {
  }

  lemma MeantBy(m: string, t: RequestLine.Target, v: string)
    requires t.Absolute?
    ensures var r := RequestLine.Meaning(m, t, v);
            r.methodStr == m && r.url == (if t.path == "" then "/" else t.path) && r.version == "HTTP/" + v
  {
  }

  /** A request to the proxy, with a body of known length or none, and what follows it; its
      head ends below 2 GiB. */
  ghost predicate Asks(s: string, m: string, t: RequestLine.Target, v: string, fields: seq<Field>, body: string, rest: string) {
    && Starts(s, m, t, v, fields) && t.Absolute? && |HeadOf(m, t, v, fields)| < INT_LIMIT
    && s == HeadOf(m, t, v, fields) + (body + rest)
    && !Response.IsChunked(HeaderMap(map[], fields)) && Response.BodyLength(HeaderMap(map[], fields)) == |body|
  }

  /** A head as it is written. */
  lemma HeadWritten(m: string, t: RequestLine.Target, v: string, fields: seq<Field>)
    ensures HeadOf(m, t, v, fields) == RequestLine.LineWritten(m, t, v) + FieldsText(fields) + "\r\n"
  {
    hide RequestLine.LineWritten, RequestLine.PrintTarget, Print, FieldsText;
    RequestLine.LineIs(m, t, v);
    FieldsAreText(fields);
    assert LineText(m, t, v) + CRLF == RequestLine.PrintLine(m, t, v);
  }

  /** Any request written so, whose fields say how long the body is. */
  lemma AsksSaid(m: string, t: RequestLine.Target, v: string, fields: seq<Field>, body: string, rest: string)
    requires RequestLine.ValidLine(m, t, v) && t.Absolute? && WellFormed(fields)
    requires Response.SaysPlain(fields) && Response.SaysLength(fields, |body|)
    requires |RequestLine.LineWritten(m, t, v) + FieldsText(fields) + "\r\n"| < 0x8000_0000
    ensures Asks(RequestLine.LineWritten(m, t, v) + FieldsText(fields) + "\r\n" + (body + rest), m, t, v, fields, body, rest)
  {
    hide RequestLine.LineWritten, RequestLine.ValidLine, HeadOf, FieldsText, WellFormed, HeaderMap, Response.IsChunked, Response.BodyLength;
    hide Response.SaysPlain, Response.SaysLength;
    HeadWritten(m, t, v, fields);
    Response.LengthSaid(fields, |body|);
  }

  /** The two fields the proxy deals with itself, however they are spelled. */
  lemma PassesExactly(f: Field)
    ensures Passes(f) <==> !Spells(f.name, "proxy-connection") && !Spells(f.name, "host")
  {
    hide ToLower, Spells;
    SmallWords();
    SpellsExactly(f.name, "proxy-connection");
    SpellsExactly(f.name, "host");
  }

  lemma SmallWords()
    ensures IsSmall("proxy-connection") && IsSmall("host")
  {
    hide CAPITAL;
    Alphabets();
  }

  /** What the service is told: the host; nothing for the proxy; and of every other name the
      last line. */
  lemma ServiceSees(fields: seq<Field>, host: string, k: nat, word: string)
    requires IsSmall(word)
    ensures var h := ForService(HeaderMap(map[], fields), host);
            && "host" in h && h["host"] == "Host: " + host + "\r\n" && "proxy-connection" !in h
            && (LastNamed(fields, k, word) && word != "host" && word != "proxy-connection" ==>
                  word in h && h[word] == fields[k].name + ": " + fields[k].value + "\r\n")
            && (NoneNamed(fields, word) && word != "host" ==> word !in h)
  {
    hide HeaderMap, LastNamed, NoneNamed;
    NamedInMap(fields, word);
  }

  /** The same request as a service should see it. */
  predicate SeenAs(got: HttpRequest, m: string, t: RequestLine.Target, v: string, host: string, h: map<string, string>)
    requires t.Absolute?
  {
    && got.line.methodStr == m && got.line.version == "HTTP/" + v
    && got.line.url == (if t.path == "" then "/" else t.path)
    && got.headers == ForService(h, host)
    && got.chunked == Response.IsChunked(h) && got.bodySize == Response.BodyLength(h)
  }

  /** The fields that delimit the body are among those sent. */
  lemma SameDelimiting(h: map<string, string>, host: string)
    ensures Response.IsChunked(ForService(h, host)) == Response.IsChunked(h)
    ensures Response.BodyLength(ForService(h, host)) == Response.BodyLength(h)
  {
    assert Response.TRANSFER_ENCODING !in {PROXY, HOST} && CONTENT_LENGTH !in {PROXY, HOST};
    hide Find, FindFrom, BodySize;
  }

  /** All but the two fields the proxy deals with itself. */
  predicate Passes(f: Field) {
    ToLower(f.name) != PROXY && ToLower(f.name) != HOST
  }

  /** The service sees the whole text of a field. */
  predicate Reaches(fields: seq<Field>, host: string, f: Field) {
    var h, key := ForService(HeaderMap(map[], fields), host), ToLower(f.name);
    key in h && h[key] == PrintField(f)
  }

  /** No line is folded, and fields of one name are alike. */
  predicate Plain(fields: seq<Field>) {
    && (forall k :: 0 <= k < |fields| && Passes(fields[k]) ==> fields[k].folds == [])
    && forall j, k :: 0 <= j < k < |fields| && Passes(fields[j]) && ToLower(fields[j].name) == ToLower(fields[k].name) ==>
         fields[j].FirstLine() == fields[k].FirstLine()
  }

  /** The service sees all the text of all the client's fields, but the two, exactly when
      none is folded and those of one name are alike. */
  lemma FieldsReach(fields: seq<Field>, host: string)
    requires WellFormed(fields)
    ensures (forall k :: 0 <= k < |fields| && Passes(fields[k]) ==> Reaches(fields, host, fields[k])) <==> Plain(fields)
  {
    hide ToLower, PrintField, Reaches;
    forall k | 0 <= k < |fields| && Passes(fields[k])
      ensures Reaches(fields, host, fields[k])
              <==> fields[k].folds == [] && fields[k].FirstLine() == fields[LastOf(fields, k)].FirstLine()
    {
      FieldReaches(fields, host, k);
    }
    if forall k :: 0 <= k < |fields| && Passes(fields[k]) ==> Reaches(fields, host, fields[k]) {
      forall j, k | 0 <= j < k < |fields| && Passes(fields[j]) && ToLower(fields[j].name) == ToLower(fields[k].name)
        ensures fields[j].FirstLine() == fields[k].FirstLine()
      {
        OneLast(fields, j, k);
      }
    }
  }

  /** The last field of the same name. */
  function LastOf(fields: seq<Field>, k: nat): (j: nat)
    requires k < |fields|
    ensures k <= j < |fields| && ToLower(fields[j].name) == ToLower(fields[k].name)
    ensures forall e :: j < e < |fields| ==> ToLower(fields[e].name) != ToLower(fields[k].name)
    decreases |fields|
  {
    var n := |fields| - 1;
    if k == n || ToLower(fields[n].name) == ToLower(fields[k].name) then n else LastOf(fields[..n], k)
  }

  lemma OneLast(fields: seq<Field>, j: nat, k: nat)
    requires j < k < |fields| && ToLower(fields[j].name) == ToLower(fields[k].name)
    ensures LastOf(fields, j) == LastOf(fields, k)
  {
  }

  lemma FieldReaches(fields: seq<Field>, host: string, k: nat)
    requires WellFormed(fields) && k < |fields| && Passes(fields[k])
    ensures Reaches(fields, host, fields[k])
            <==> fields[k].folds == [] && fields[k].FirstLine() == fields[LastOf(fields, k)].FirstLine()
  {
    hide ToLower, LastOf, PrintField, HeaderMap;
    var f, j := fields[k], LastOf(fields, k);
    HeaderMapLast(map[], fields, j);
    assert f.Valid() && fields[j].Valid();
    FoldsDiffer(f, fields[j]);
  }

  /** A folded field is not a line. */
  lemma FoldsDiffer(f: Field, g: Field)
    requires f.Valid() && g.Valid()
    ensures f.folds == [] ==> PrintField(f) == f.FirstLine()
    ensures f.folds != [] ==> PrintField(f) != g.FirstLine()
  {
    if f.folds != [] {
      var p, q := PrintField(f), g.FirstLine();
      var e := |f.FirstLine()| - 2;
      assert p[e] == '\r' && |p| > e + 2;
      assert q == (g.name + COLON + g.value) + CRLF;
      if p == q { NoReturn(g, e); }
    }
  }

  lemma NoReturn(g: Field, e: nat)
    requires g.Valid() && e + 2 < |g.FirstLine()|
    ensures g.FirstLine()[e] != '\r'
  {
  }

  /** What a service reads of a request it is sent: that request, and then its body. */
  method ReadSent(text: string, ghost head: string, ghost body: string, ghost m: string, ghost t: RequestLine.Target, ghost v: string,
                  ghost fields: seq<Field>, ghost host: string)
    returns (w: Memory, got: Option<HttpRequest>)
    requires RequestLine.ValidLine(m, t, v) && t.Absolute? && WellFormed(fields) && '\r' !in host
    requires IsHeadSent(head, RequestLine.Meaning(m, t, v), host, HeaderMap(map[], fields))
    requires text == head + body && |text| <= SIZE_RANGE - INT_LIMIT
    ensures fresh(w) && w.Valid() && w.Stream() == body && got.Some?
    ensures |LineText(m, t, v)| + 2 < INT_LIMIT ==> SeenAs(got.value, m, t, v, host, HeaderMap(map[], fields))
  {
    hide Buffer.Valid, Buffer.Unread, Find, FindFrom, FirstEnd, HeadOf, RequestLine.Meaning, RequestLine.ValidLine, LineText;
    hide HeadSent, Enumerates, HeaderMap, Response.IsChunked, Response.BodyLength, ForService, WellFormed, Hits;
    ghost var o := RequestLine.Origin(RequestLine.Meaning(m, t, v).url);
    ghost var order :| Enumerates(order, HeaderMap(map[], fields).Keys - {PROXY, HOST})
                       && head == HeadSent(RequestLine.Meaning(m, t, v), host, HeaderMap(map[], fields), order);
    ghost var sent := SentIsHead(m, t, v, fields, host, order);
    w := new Memory(text, LOAD_SIZE);
    StartsSent(head, body, m, o, v, sent);
    OriginShorter(m, t, v);
    if |LineText(m, t, v)| + 2 < INT_LIMIT { HitsBelow(0, |LineText(m, o, v)| + 2); }
    MeantBy(m, t, v);
    ReadAs(o, m, v);
    SameDelimiting(HeaderMap(map[], fields), host);
    got := ReadRequest(w, m, o, v, sent);
    assert (head + body)[|head|..] == body;
  }

  /** In origin form the line is shorter, by the host and more. */
  lemma OriginShorter(m: string, t: RequestLine.Target, v: string)
    requires RequestLine.ValidLine(m, t, v) && t.Absolute?
    ensures |LineText(m, RequestLine.Origin(RequestLine.Meaning(m, t, v).url), v)| + |t.host| + 6 <= |LineText(m, t, v)|
  {
  }

  /** The headers of a head that ends below 2 GiB are shown. */
  lemma ShownBelow(m: string, t: RequestLine.Target, v: string, fields: seq<Field>)
    ensures |LineText(m, t, v)| + 2 <= |HeadOf(m, t, v, fields)|
    ensures |HeadOf(m, t, v, fields)| < INT_LIMIT ==>
              Shown(0, |LineText(m, t, v)| + 2, fields) == HeaderMap(map[], fields) && Hits(0, |HeadOf(m, t, v, fields)|)
  {
    hide LineText, Print, HeaderMap;
    assert |HeadOf(m, t, v, fields)| == |LineText(m, t, v)| + 2 + |Print(fields)| + 2;
  }

  lemma StartsSent(head: string, body: string, m: string, o: RequestLine.Target, v: string, sent: seq<Field>)
    requires RequestLine.ValidLine(m, o, v) && WellFormed(sent) && head == HeadOf(m, o, v, sent)
    ensures Starts(head + body, m, o, v, sent)
  {
    hide HeadOf, WellFormed, RequestLine.ValidLine;
  }

  lemma HostOfRequest(m: string, t: RequestLine.Target, v: string)
    requires RequestLine.ValidLine(m, t, v) && t.Absolute?
    ensures '\r' !in t.host
  {
    RequestLine.HostBytes(t.host);
  }

  /** The head sent is at most two bytes longer than the client's, and a new host. */
  lemma HeadLength(m: string, t: RequestLine.Target, v: string, fields: seq<Field>, other: string, head: string)
    requires RequestLine.ValidLine(m, t, v) && t.Absolute?
    requires IsHeadSent(head, RequestLine.Meaning(m, t, v), HostFor(other, t.host), HeaderMap(map[], fields))
    ensures |head| <= |HeadOf(m, t, v, fields)| + |other| + 2
  {
    hide Print, HeaderMap, Values;
    var h, r, host := HeaderMap(map[], fields), RequestLine.Meaning(m, t, v), HostFor(other, t.host);
    var order :| Enumerates(order, h.Keys - {PROXY, HOST}) && head == HeadSent(r, host, h, order);
    ValuesLength(map[], fields, order);
    NoValues(order);
    OriginShorter(m, t, v);
    hide RequestLine.ValidLine;
    LineLonger(m, t, v);
  }

  lemma LineLonger(m: string, t: RequestLine.Target, v: string)
    requires t.Absolute?
    ensures |RequestLine.Reprint(RequestLine.Meaning(m, t, v))|
            == |LineText(m, RequestLine.Origin(RequestLine.Meaning(m, t, v).url), v)| + 2
  {
  }

  lemma {:induction false} NoValues(order: seq<string>)
    ensures Values(map[], order) == ""
  {
    if order != [] { NoValues(order[..|order| - 1]); }
  }

  /** Each key once: the values are at most as long as the fields they come from. */
  lemma {:induction false} ValuesLength(h: map<string, string>, fields: seq<Field>, order: seq<string>)
    requires forall i, j :: 0 <= i < j < |order| ==> order[i] != order[j]
    ensures |Values(HeaderMap(h, fields), order)| <= |Values(h, order)| + |Print(fields)|
    decreases |fields|
  {
    hide ToLower, Values;
    if fields != [] {
      var f := fields[0];
      ValuesLength(h[ToLower(f.name) := f.FirstLine()], fields[1..], order);
      OneMore(h, ToLower(f.name), f.FirstLine(), order);
      PrintStep(fields);
      FieldLength(f);
    }
  }

  lemma FieldLength(f: Field)
    ensures |f.FirstLine()| <= |PrintField(f)|
  {
  }

  lemma {:induction false} OneMore(h: map<string, string>, key: string, value: string, order: seq<string>)
    requires forall i, j :: 0 <= i < j < |order| ==> order[i] != order[j]
    ensures key !in order ==> Values(h[key := value], order) == Values(h, order)
    ensures |Values(h[key := value], order)| <= |Values(h, order)| + |value|
  {
    if order != [] { OneMore(h, key, value, order[..|order| - 1]); }
  }

  /** The text is a request sent for this one: a head for it, and the body. */
  ghost predicate IsRequestSent(sent: string, other: string, m: string, t: RequestLine.Target, v: string, fields: seq<Field>, body: string)
  {
    t.Absolute?
    && exists head :: IsHeadSent(head, RequestLine.Meaning(m, t, v), HostFor(other, t.host), HeaderMap(map[], fields))
                      && sent == head + body
  }

  /** Forwarding preserves the request: method, path, version, every field but the two, the
      host, and the body are what the service reads, byte for byte where it matters. */
  method ForwardThenRead(ss: Memory, other: string, ghost m: string, ghost t: RequestLine.Target, ghost v: string,
                         ghost fields: seq<Field>, ghost body: string, ghost rest: string)
    returns (sent: string, w: Memory, got: Option<HttpRequest>)
    requires ss.Valid() && '\r' !in other && Asks(ss.incoming, m, t, v, fields, body, rest)
    requires |ss.incoming| + |other| < SIZE_RANGE / 2
    modifies ss
    ensures ss.Valid() && ss.Stream() == rest && IsRequestSent(sent, other, m, t, v, fields, body)
    ensures fresh(w) && w.Valid() && w.Stream() == body && got.Some?
    ensures SeenAs(got.value, m, t, v, HostFor(other, t.host), HeaderMap(map[], fields))
  {
    hide Buffer.Valid, Buffer.Unread, Find, FindFrom, FirstEnd, HeadOf, RequestLine.ValidLine, RequestLine.Meaning, Goes, LineText;
    hide IsHeadSent, HeaderMap, Response.IsChunked, Response.BodyLength, SeenAs, WellFormed, Starts, Hits;
    var to := new Memory("", LOAD_SIZE);
    StartValid(ss.incoming, m, t, v, fields);
    HostOfRequest(m, t, v);
    ShownBelow(m, t, v, fields);
    ghost var most := ss.most;
    var end;
    ghost var head, text, came;
    var dest;
    end, dest, head, text, came := ForwardRequest(ss, to, other, m, t, v, fields, body + rest, [], "");
    SentWhole(old(ss.incoming), most, other, m, t, v, fields, body, rest, end, head, text, came, ss.Stream(), ss.Unread());
    HeadLength(m, t, v, fields, other, head);
    sent := to.outgoing;
    assert "" + head + text == head + body;
    w, got := ReadSent(sent, head, body, m, t, v, fields, HostFor(other, t.host));
  }

  /** With a body of known length or none, both arrive, and what is unread then is what came
      with the head behind the body. */
  lemma SentWhole(s: string, most: Amount, other: string, m: string, t: RequestLine.Target, v: string, fields: seq<Field>,
                  body: string, rest: string, end: ForwardEnd, head: string, text: string, came: nat, left: string, u: string)
    requires Goes(s, most, other, m, t, v, fields, body + rest, [], "", end, head, text, came, left, u)
    requires Asks(s, m, t, v, fields, body, rest)
    ensures end == Complete && text == body && left == rest && Response.CanCome(s, most, came)
    ensures IsHeadSent(head, RequestLine.Meaning(m, t, v), HostFor(other, t.host), HeaderMap(map[], fields))
    ensures came <= |body + rest| && u == Behind((body + rest)[..came], |body|)
  {
    hide HeadOf, IsHeadSent, HeaderMap, Response.IsChunked, Response.BodyLength, Shown, Hits, LineText, Starts, Blocks, HeadFor, Response.CanCome;
    ShownBelow(m, t, v, fields);
    assert Take(body + rest, |body|) == body && (body + rest)[|body|..] == rest;
    assert body == "" ==> body + rest == rest;
  }

  /** What is behind the first `n` bytes. */
  function Behind(s: string, n: nat): string {
    if n < |s| then s[n..] else ""
  }

  // ---------- two requests ----------

  /** When two requests come without waiting, so much of the second can be in the buffer when
      the first is sent, which has a body of `n` bytes. */
  ghost predicate CanLose(s: string, most: Amount, n: nat, lost: string) {
    exists came: nat ::
      Response.CanCome(s, most, came)
      && FirstEnd(s, END) + came <= |s| && lost == Behind(s[FirstEnd(s, END)..][..came], n)
  }

  /** Those of its bytes that one read can bring with the end of the first head, and any number
      of these. */
  lemma LosesExactly(s: string, most: Amount, head: string, body: string, second: string, lost: string)
    requires Find(s, END).Some? && FirstEnd(s, END) == |head| && s == head + (body + second)
    ensures CanLose(s, most, |body|, lost) <==> lost <= second && (lost == "" || |body| + |lost| < most)
  {
    hide Find, FindFrom, FirstEnd, Response.CanCome;
    var after := body + second;
    assert s[|head|..] == after;
    forall came: nat | |head| + came <= |s| ensures Behind(after[..came], |body|) == Take(second, if came < |body| then 0 else came - |body|) {
      BehindBody(body, second, came);
    }
    forall came: nat ensures Response.CanCome(s, most, came) <==> came < most && |head| + came <= |s| {
      Response.ComesExactly(s, most, came);
    }
    if lost <= second && (lost == "" || |body| + |lost| < most) {
      var came := if lost == "" then 0 else |body| + |lost|;
      assert Response.CanCome(s, most, came) && Behind(after[..came], |body|) == lost;
    }
  }

  lemma BehindBody(body: string, second: string, came: nat)
    requires came <= |body + second|
    ensures Behind((body + second)[..came], |body|) == Take(second, if came < |body| then 0 else came - |body|)
  {
  }

  /** What can be sent of the stream `s`. */
  ghost predicate CanSend(s: string, most: Amount, other: string, m: string, t: RequestLine.Target, v: string, fields: seq<Field>,
                          body: string, rest: string, sent: string)
  {
    exists end, head, text, came, left, u ::
      Goes(s, most, other, m, t, v, fields, body + rest, [], "", end, head, text, came, left, u) && sent == head + text
  }

  /** Two requests that a client sends without waiting, to two services. What of the second is
      in the buffer then is dropped when the loop starts again (`lost`), and what becomes of the
      rest is what becomes of a stream that starts there; m2 and so on are any reading of that. */
  method ForwardTwo(ss: Memory, w: Memory, w2: Memory, other: string, other2: string,
                    ghost m: string, ghost t: RequestLine.Target, ghost v: string, ghost fields: seq<Field>, ghost body: string,
                    ghost second: string, ghost m2: string, ghost t2: RequestLine.Target, ghost v2: string,
                    ghost fields2: seq<Field>, ghost body2: string, ghost rest: string)
    returns (ghost sent: string, ghost lost: string, ghost sent2: string)
    requires ss != w && ss != w2 && w != w2 && ss.Valid() && |ss.incoming| <= SIZE_RANGE - INT_LIMIT
    requires Asks(ss.incoming, m, t, v, fields, body, second)
    modifies ss, w, w2
    ensures ss.Valid() && w.outgoing == old(w.outgoing) + sent && w2.outgoing == old(w2.outgoing) + sent2
    ensures IsRequestSent(sent, other, m, t, v, fields, body)
    ensures CanLose(old(ss.incoming), ss.most, |body|, lost) && |lost| <= |second|
    ensures CanSend(second[|lost|..], ss.most, other2, m2, t2, v2, fields2, body2, rest, sent2)
    ensures Asks(second[|lost|..], m2, t2, v2, fields2, body2, rest) ==>
              IsRequestSent(sent2, other2, m2, t2, v2, fields2, body2) && ss.Stream() == rest
    ensures lost == second ==> sent2 == ""
  {
    hide Buffer.Valid, Buffer.Unread, Find, FindFrom, FirstEnd, HeadOf, Goes, IsHeadSent, HeaderMap, Starts, LineText;
    hide Response.IsChunked, Response.BodyLength, Response.CanCome, Asks;
    ghost var s, most := ss.incoming, ss.most;
    var end;
    ghost var head, text, came;
    var dest;
    end, dest, head, text, came := ForwardRequest(ss, w, other, m, t, v, fields, body + second, [], "");
    SentWhole(s, most, other, m, t, v, fields, body, second, end, head, text, came, ss.Stream(), ss.Unread());
    sent := head + text;
    lost := ss.Unread();
    AsksFacts(s, m, t, v, fields, body, second);
    assert second == lost + ss.incoming && second[|lost|..] == ss.incoming;
    var end2;
    ghost var before := w2.outgoing;
    ghost var head2, text2, came2;
    var dest2;
    end2, dest2, head2, text2, came2 := ForwardRequest(ss, w2, other2, m2, t2, v2, fields2, body2 + rest, [], "");
    sent2 := head2 + text2;
    assert before + head2 + text2 == before + sent2;
    if Asks(second[|lost|..], m2, t2, v2, fields2, body2, rest) {
      AsksFacts(second[|lost|..], m2, t2, v2, fields2, body2, rest);
      SentWhole(second[|lost|..], most, other2, m2, t2, v2, fields2, body2, rest, end2, head2, text2, came2, ss.Stream(), ss.Unread());
    }
    if lost == second { NothingGoes(most, other2, m2, t2, v2, fields2, body2 + rest, end2, head2, text2, came2, ss.Stream(), ss.Unread()); }
  }

  lemma NothingGoes(most: Amount, other: string, m: string, t: RequestLine.Target, v: string, fields: seq<Field>, after: string,
                    end: ForwardEnd, head: string, text: string, came: nat, left: string, u: string)
    requires Goes("", most, other, m, t, v, fields, after, [], "", end, head, text, came, left, u)
    ensures head + text == ""
  {
    assert Find("", END).None?;
  }

  lemma StartsAt(s: string, m: string, t: RequestLine.Target, v: string, fields: seq<Field>, after: string)
    requires Starts(s, m, t, v, fields) && s == HeadOf(m, t, v, fields) + after
    ensures Find(s, END).Some? && FirstEnd(s, END) == |HeadOf(m, t, v, fields)| && s[FirstEnd(s, END)..] == after
  {
    hide Find, FindFrom, FirstEnd, HeadOf, Starts;
    StartFacts(s, m, t, v, fields);
  }

  /** Whatever is sent of the stream `s`, it is this request. */
  ghost predicate Arrives(s: string, most: Amount, other: string, m: string, t: RequestLine.Target, v: string, fields: seq<Field>,
                          body: string, rest: string)
  {
    forall sent :: CanSend(s, most, other, m, t, v, fields, body, rest, sent) ==> IsRequestSent(sent, other, m, t, v, fields, body)
  }

  /** The second of two requests arrives under every fragmentation exactly when the first has
      so long a body that none of the second's bytes can come with the first head: without
      a body never, unless the socket is read byte by byte. */
  lemma SecondExactly(s: string, most: Amount, m: string, t: RequestLine.Target, v: string, fields: seq<Field>, body: string,
                      second: string, other: string, m2: string, t2: RequestLine.Target, v2: string, fields2: seq<Field>,
                      body2: string, rest: string)
    requires Asks(s, m, t, v, fields, body, second) && Asks(second, m2, t2, v2, fields2, body2, rest)
    ensures (forall lost :: CanLose(s, most, |body|, lost) && |lost| <= |second| ==>
                              Arrives(second[|lost|..], most, other, m2, t2, v2, fields2, body2, rest))
            <==> most <= |body| + 1
  {
    hide Asks, Find, FindFrom, FirstEnd, HeadOf, CanLose, Arrives;
    AsksFacts(s, m, t, v, fields, body, second);
    forall lost ensures CanLose(s, most, |body|, lost) <==> lost <= second && (lost == "" || |body| + |lost| < most) {
      LosesExactly(s, most, HeadOf(m, t, v, fields), body, second, lost);
    }
    if most <= |body| + 1 {
      NothingLost(second, most, other, m2, t2, v2, fields2, body2, rest);
      assert second[|""|..] == second;
    } else {
      FirstByteLost(second, most, other, m2, t2, v2, fields2, body2, rest);
      assert CanLose(s, most, |body|, second[..1]);
    }
  }

  lemma AsksFacts(s: string, m: string, t: RequestLine.Target, v: string, fields: seq<Field>, body: string, rest: string)
    requires Asks(s, m, t, v, fields, body, rest)
    ensures Find(s, END).Some? && FirstEnd(s, END) == |HeadOf(m, t, v, fields)| && s == HeadOf(m, t, v, fields) + (body + rest)
    ensures ' ' !in m && m + " h" <= s && t.Absolute?
  {
    StartsAt(s, m, t, v, fields, body + rest);
    AbsoluteLine(m, t, v);
    hide Find, FindFrom, FirstEnd, HeadOf, RequestLine.ValidLine;
    StartFacts(s, m, t, v, fields);
  }

  lemma AbsoluteLine(m: string, t: RequestLine.Target, v: string)
    requires t.Absolute?
    ensures RequestLine.ValidLine(m, t, v) ==> ' ' !in m
    ensures m + " h" <= RequestLine.PrintLine(m, t, v)
  {
    assert RequestLine.PrintTarget(t)[0] == 'h';
  }

  lemma NothingLost(s: string, most: Amount, other: string, m: string, t: RequestLine.Target, v: string, fields: seq<Field>,
                    body: string, rest: string)
    requires Asks(s, m, t, v, fields, body, rest)
    ensures Arrives(s, most, other, m, t, v, fields, body, rest)
  {
    hide Asks, Goes, IsHeadSent, HeaderMap, Behind;
    AsksFacts(s, m, t, v, fields, body, rest);
    forall sent | CanSend(s, most, other, m, t, v, fields, body, rest, sent) ensures IsRequestSent(sent, other, m, t, v, fields, body) {
      var end, head, text, came, left, u :|
        Goes(s, most, other, m, t, v, fields, body + rest, [], "", end, head, text, came, left, u) && sent == head + text;
      SentWhole(s, most, other, m, t, v, fields, body, rest, end, head, text, came, left, u);
    }
  }

  /** Without its first byte a request is never sent as it is: its method would be another. */
  lemma FirstByteLost(s: string, most: Amount, other: string, m: string, t: RequestLine.Target, v: string, fields: seq<Field>,
                      body: string, rest: string)
    requires Asks(s, m, t, v, fields, body, rest)
    ensures s != "" && !Arrives(s[1..], most, other, m, t, v, fields, body, rest)
    ensures forall sent :: CanSend(s[1..], most, other, m, t, v, fields, body, rest, sent) ==>
                             !IsRequestSent(sent, other, m, t, v, fields, body)
  {
    hide Asks, Goes, IsHeadSent, HeaderMap;
    AsksFacts(s, m, t, v, fields, body, rest);
    forall sent | CanSend(s[1..], most, other, m, t, v, fields, body, rest, sent)
      ensures !IsRequestSent(sent, other, m, t, v, fields, body)
    {
      var end, head, text, came, left, u :|
        Goes(s[1..], most, other, m, t, v, fields, body + rest, [], "", end, head, text, came, left, u) && sent == head + text;
      OtherMethod(s, most, other, m, t, v, fields, body, rest, end, head, text, came, left, u);
    }
    var sent := Something(s, most, other, m, t, v, fields, body, rest);
  }

  lemma OtherMethod(s: string, most: Amount, other: string, m: string, t: RequestLine.Target, v: string, fields: seq<Field>,
                    body: string, rest: string, end: ForwardEnd, head: string, text: string, came: nat, left: string, u: string)
    requires s != "" && ' ' !in m && m + " h" <= s && t.Absolute?
    requires Goes(s[1..], most, other, m, t, v, fields, body + rest, [], "", end, head, text, came, left, u)
    ensures !IsRequestSent(head + text, other, m, t, v, fields, body)
  {
    hide Find, FindFrom, FirstEnd, IsHeadSent, HeaderMap, Blocks, Starts, RequestLine.Means, Response.CanCome, Shown, Sends, HeadOf;
    if IsRequestSent(head + text, other, m, t, v, fields, body) {
      var sent := head + text;
      var head2 :| IsHeadSent(head2, RequestLine.Meaning(m, t, v), HostFor(other, t.host), HeaderMap(map[], fields)) && sent == head2 + body;
      SentStart(head2, RequestLine.Meaning(m, t, v), HostFor(other, t.host), HeaderMap(map[], fields));
      MeantBy(m, t, v);
      assert m + " " <= sent;
      var line := s[1..][..LineLength(s[1..])];
      var r, h :| AsksProxy(line, r) && IsHeadSent(head, r, HostFor(other, r.host), h);
      SentStart(head, r, HostFor(other, r.host), h);
      MethodOf(line, r);
      OneMethod(m, r.methodStr, sent);
      Shifted(s, m);
    }
  }

  lemma SentStart(head: string, r: RequestLine.Request, host: string, h: map<string, string>)
    requires IsHeadSent(head, r, host, h)
    ensures r.methodStr + " " <= head
  {
    hide Values, Enumerates;
  }

  lemma MethodOf(line: string, r: RequestLine.Request)
    requires RequestLine.Means(line, r)
    ensures ' ' !in r.methodStr && r.methodStr + " " <= line
  {
    var m, scheme, endpoint, path, v :| RequestLine.IsLine(line, m, scheme, endpoint, path, v);
    assert r == RequestLine.ReadAs(m, endpoint, path, v);
  }

  lemma OneMethod(a: string, b: string, s: string)
    requires ' ' !in a && ' ' !in b && a + " " <= s && b + " " <= s
    ensures a == b
  {
    assert (a + " ")[|a|] == s[|a|] && (b + " ")[|b|] == s[|b|];
    assert a == (a + " ")[..|a|] == s[..|a|] && b == (b + " ")[..|b|] == s[..|b|];
  }

  lemma Shifted(s: string, m: string)
    requires s != "" && m + " h" <= s
    ensures !(m + " " <= s[1..])
  {
    assert s[|m| + 1] == (m + " h")[|m| + 1];
  }

  lemma Longer(m: string, s: string)
    ensures m + " h" <= s ==> m + " " <= s
  {
    assert m + " " == (m + " h")[..|m| + 1];
  }

  /** Something can be sent of it. */
  lemma Something(s: string, most: Amount, other: string, m: string, t: RequestLine.Target, v: string, fields: seq<Field>,
                  body: string, rest: string) returns (sent: string)
    requires s != "" && ' ' !in m && m + " h" <= s && t.Absolute?
    ensures CanSend(s[1..], most, other, m, t, v, fields, body, rest, sent)
  {
    hide Find, FindFrom, FirstEnd, HeaderMap, Blocks, Starts, RequestLine.Means, Response.CanCome, Shown, Sends, HeadOf, HeadSent;
    hide LineLength, Enumerates;
    var s' := s[1..];
    NotItsStart(s, m, t, v, fields);
    AskedAs(s');
    var line, head := Take(s', LineLength(s')), "";
    if Proxied(s') {
      var r :| AsksProxy(line, r);
      var h :| Response.HeadReads(s', 0, h);
      if Blocks(s', fields) { BlockReading(s', fields, h); }
      var order := InSomeOrder(h.Keys - {PROXY, HOST});
      head := HeadSent(r, HostFor(other, r.host), h, order);
      assert IsHeadSent(head, r, HostFor(other, r.host), h);
      SentStart(head, r, HostFor(other, r.host), h);
      BlockStart(s', m, t, v, fields);
      Response.ComesExactly(s', most, 0);
    }
    sent := head;
    assert head + "" == head;
    var end := if head != "" then Complete else if ReadsAsRequest(s') then NotProxied else Refused;
    assert Goes(s', most, other, m, t, v, fields, body + rest, [], "", end, head, "", 0, "", "");
  }

  lemma BlockReading(s: string, fields: seq<Field>, h: map<string, string>)
    requires Blocks(s, fields) && Response.HeadReads(s, 0, h)
    ensures h == Shown(0, LineLength(s), fields)
  {
    hide Find, FindFrom, FirstEnd, LineLength, AreReadable, HeaderMap, Print, Hits;
    if Hits(0, 0 + LineLength(s)) {
      var other :| AreReadable(other) && Print(fields) == Print(other) && h == HeaderMap(map[], other);
      OneReading(fields, other);
    }
  }

  lemma NotItsStart(s: string, m: string, t: RequestLine.Target, v: string, fields: seq<Field>)
    requires s != "" && m + " h" <= s && t.Absolute?
    ensures !Starts(s[1..], m, t, v, fields)
  {
    if Starts(s[1..], m, t, v, fields) {
      hide Starts, HeadOf, RequestLine.PrintLine, Find, FindFrom;
      StartFacts(s[1..], m, t, v, fields);
      AbsoluteLine(m, t, v);
      Shifted(s, m);
      Longer(m, s[1..]);
    }
  }

  lemma {:induction false} InSomeOrder(keys: set<string>) returns (order: seq<string>)
    ensures Enumerates(order, keys)
    decreases |keys|
  {
    order := [];
    if keys != {} {
      var key: string :| key in keys;
      var rest := InSomeOrder(keys - {key});
      EnumeratesMore(rest, keys - {key}, key);
      order := rest + [key];
      assert keys - {key} + {key} == keys;
    }
  }
}
