/** Relaying one response from a service to the client: parser_response_line,
    parser_headers, and the part of http_do that forwards head and body. */
module Response {
  import Seqs
  import opened Wrappers
  import opened Strings
  import opened BlockBuffer
  import opened SocketMemory
  import opened Transfer
  import opened Numerals
  import opened Hex
  import opened Headers
  import Chunked
  import Closing

  const END := Closing.END

  // ---------- where a head ends ----------

  lemma EndNext(line: string, t: string)
    requires '\r' !in line && t != "" && t[0] != '\r' && Find(t, END).Some?
    ensures Find(line + CRLF + t, END) == Some(|line| + 2 + Find(t, END).value)
  {
    var s, k := line + CRLF + t, |line| + 2 + Find(t, END).value;
    assert s[|line| + 2..] == t && s[|line| + 2] == t[0] && s[|line| + 1] == '\n';
    forall e | 0 <= e < k ensures !OccursAt(s, END, e) {
      if e >= |line| + 2 {
        OccursInSuffix(line + CRLF, t, END, e);
      } else if OccursAt(s, END, e) {
        assert e < |line| ==> s[e] == line[e];
        OccursHead(s, END, e);
        OccursByte(s, END, e, 2);
      }
    }
    OccursInSuffix(line + CRLF, t, END, k);
    FindIs(s, END, k);
  }

  lemma EndHere(line: string, rest: string)
    requires '\r' !in line
    ensures Find(line + CRLF + CRLF + rest, END) == Some(|line|)
  {
    assert line + CRLF + CRLF + rest == line + END + rest;
    FindAfter(line + END + rest, END, line, rest, '\r');
  }

  /** A head: a first line, the fields, an empty line. */
  function Head(line: string, fields: seq<Field>): string {
    line + CRLF + Print(fields) + CRLF
  }

  /** What follows a line of a head: its folded lines, the fields left, the empty line. */
  function AfterLine(folds: seq<string>, fields: seq<Field>, rest: string): string {
    PrintFolds(folds) + Print(fields) + CRLF + rest
  }

  lemma RegroupLine(a: string, b: string, c: string, d: string, e: string, f: string, g: string, h: string)
    ensures "" + (a + b + c + d + e + f) + g + h == a + b + c + d + (e + f + g + h)
  {
  }

  lemma AfterFold(folds: seq<string>, fields: seq<Field>, rest: string)
    requires folds != []
    ensures AfterLine(folds, fields, rest) == " " + folds[0] + CRLF + AfterLine(folds[1..], fields, rest)
    ensures |PrintFolds(folds)| == 3 + |folds[0]| + |PrintFolds(folds[1..])|
  {
    var f := PrintFolds(folds[1..]);
    assert PrintFolds(folds) == " " + folds[0] + CRLF + f;
    hide *;
    Seqs.JoinFive(" " + folds[0] + CRLF, f, Print(fields), CRLF, rest);
  }

  lemma AfterField(fields: seq<Field>, rest: string)
    requires fields != []
    ensures var f := fields[0];
            && AfterLine([], fields, rest) == f.name + COLON + f.value + CRLF + AfterLine(f.folds, fields[1..], rest)
            && |Print(fields)| == |f.name| + 2 + |f.value| + 2 + |PrintFolds(f.folds)| + |Print(fields[1..])|
  {
    var f := fields[0];
    RegroupLine(f.name, COLON, f.value, CRLF, PrintFolds(f.folds), Print(fields[1..]), CRLF, rest);
    assert PrintFolds([]) == "";
  }

  lemma {:induction false} HeadEnd(line: string, folds: seq<string>, fields: seq<Field>, rest: string)
    requires '\r' !in line && FoldsValid(folds) && WellFormed(fields)
    ensures Find(line + CRLF + AfterLine(folds, fields, rest), END)
            == Some(|line| + |PrintFolds(folds)| + |Print(fields)|)
    decreases |fields|, |folds|
  {
    hide AfterLine, PrintFolds, Print, Find, FindFrom;
    var t := AfterLine(folds, fields, rest);
    if folds != [] {
      var next := " " + folds[0];
      HeadEnd(next, folds[1..], fields, rest);
      AfterFold(folds, fields, rest);
      EndNext(line, t);
    } else if fields != [] {
      var f := fields[0];
      assert f.Valid();
      var next := f.name + COLON + f.value;
      HeadEnd(next, f.folds, fields[1..], rest);
      AfterField(fields, rest);
      PrintStart(fields);
      EndNext(line, t);
      PrintNothing(folds, fields);
    } else {
      AfterNothing(rest);
      assert line + CRLF + (CRLF + rest) == line + CRLF + CRLF + rest;
      EndHere(line, rest);
    }
  }

  lemma PrintNothing(folds: seq<string>, fields: seq<Field>)
    ensures folds == [] ==> PrintFolds(folds) == ""
    ensures fields == [] ==> Print(fields) == ""
  {
  }

  lemma AfterNothing(rest: string)
    ensures AfterLine([], [], rest) == CRLF + rest
    ensures PrintFolds([]) == "" && Print([]) == ""
  {
  }

  // ---------- parser_response_line ----------

  /** A head of `e` bytes: its first line, and the header block between it and the empty
      line, which is empty or ends with a line end. */
  lemma SplitHead(s: string, e: nat)
    requires Find(s, END).Some? && e == FirstEnd(s, END)
    ensures var l := LineLength(s[..e]);
            && 2 <= l <= e - 2 && Lines(s[l..e - 2]) && l == LineLength(s)
  {
    var msg, at := s[..e], e - 4;
    assert s[at..e] == END;
    OccursByte(s, END, at, 1);
    assert msg[at..at + 2] == s[at..e][..2] == CRLF;
    assert OccursAt(msg, CRLF, at);
    var k := Find(msg, CRLF).value;
    OccursByte(msg, CRLF, k, 1);
    OccursHead(s, END, at);
    assert k <= at && k != at - 1;
    FindInPrefix(msg, s[e..], CRLF);
    assert msg + s[e..] == s;
    if k < at {
      assert s[k + 2..e - 2][|s[k + 2..e - 2]| - 2..] == s[at..e][..2];
    }
  }

  /** At most one block, which begins there. */
  predicate Lone(blocks: seq<Block>, begin: nat) {
    |blocks| <= 1 && (blocks != [] ==> blocks[0].begin == begin)
  }

  method ParserResponseLine(w: Memory) returns (line: string, headerEnd: nat)
    requires w.Valid() && w.Unread() == "" && w.blocks == [] && w.Fits()
    modifies w`blocks, w`readIndex, w`writeIndex, w`readOk, w`incoming
    ensures w.Valid() && w.Fits() && Lone(w.blocks, old(w.readIndex)) && w.readIndex == old(w.readIndex) + |line|
    ensures Find(old(w.incoming), END).None? ==>
              line == "" && headerEnd == SIZE_RANGE - 2 && w.Stream() == ""
    ensures Find(old(w.incoming), END).Some? ==>
              var s, e := old(w.incoming), FirstEnd(old(w.incoming), END);
              && 2 <= |line| == LineLength(s) && |line| + headerEnd + 2 == e <= |s|
              && line == s[..|line|] && w.Stream() == s[|line|..]
              && headerEnd + 2 <= |w.Unread()| < headerEnd + 2 + w.most && Lines(s[|line|..|line| + headerEnd])
  {
    hide Buffer.Valid, Buffer.Unread, Find, FindFrom, Load, Remove, Lines, LineLength, Lone, CanRead, Take;
    ghost var s := w.incoming;
    assert w.Stream() == s;
    var msg := w.AsyncLoadUntil(END);
    LoneBlock(old(w.State()), w.Unread(), w.State());
    line := Take(msg, LineLength(msg));
    if Find(s, END).Some? {
      ReadExactly(s, END, w.most, w.Unread());
      BlockUnread(s, |msg|, LineLength(msg), w.Unread(), w.incoming);
    }
    LineTaken(s, msg, LineLength(msg));
    RemoveLone(w.State(), |line|, old(w.readIndex));
    RemoveIndex(w.State(), |line|);
    var _ := w.RemoveSome(|line|);
    headerEnd := Wrap(|msg| - |line| - 2);
    assert Find(s, END).Some? ==> 0 <= |msg| - |line| - 2 < SIZE_RANGE;
  }

  lemma LineTaken(s: string, msg: string, l: nat)
    requires msg <= s
    ensures msg == "" ==> Take(msg, l) == ""
    ensures l <= |msg| ==> |Take(msg, l)| == l && Take(msg, l) == s[..l]
  {
  }

  lemma LoneBlock(before: Buffer, r: string, after: Buffer)
    requires before.Valid() && before.blocks == [] && (after == before || (r != "" && after == Load(before, r)))
    ensures Lone(after.blocks, before.readIndex)
  {
    if after != before { LoadAppends(before, r); }
  }

  lemma EraseLone(blocks: seq<Block>, index: nat)
    requires |blocks| <= 1
    ensures Erase(blocks, index) == [] || Erase(blocks, index) == blocks
  {
  }

  /** Consuming bytes of a lone block. */
  lemma RemoveLone(buf: Buffer, n: nat, begin: nat)
    requires Lone(buf.blocks, begin)
    ensures Lone(Remove(buf, n).blocks, begin)
  {
    EraseLone(buf.blocks, buf.readIndex + n);
  }

  lemma RemoveIndex(buf: Buffer, n: nat)
    ensures Remove(buf, n).readIndex == buf.readIndex + n && Remove(buf, n).writeIndex == buf.writeIndex
  {
  }

  /** A head whose first line of `l` bytes was consumed: the header block is still unread. */
  lemma BlockUnread(s: string, e: nat, l: nat, read: string, rest: string)
    requires Find(s, END).Some? && e == FirstEnd(s, END) <= |read| && s == read + rest && l == LineLength(s[..e])
    ensures 2 <= l <= e - 2 && |read[l..]| >= e - l && Lines(s[l..e - 2]) && l == LineLength(s)
    ensures read[l..] + rest == s[l..] && read[..e] == s[..e]
  {
    SplitHead(s, e);
  }

  /** What a lone block shows. */
  lemma LoneShows(buf: Buffer, begin: nat)
    requires buf.Valid() && buf.Reachable() && Lone(buf.blocks, begin)
    ensures Visible(buf) == if Hits(begin, buf.readIndex) then buf.Unread() else ""
  {
    hide Visible, Hits, Buffer.Unread;
    VisibleExact(buf);
    UnreadLength(buf);
  }

  // ---------- parser_headers ----------

  const TRANSFER_ENCODING := "transfer-encoding"
  const CONNECTION := "connection"

  predicate Mentions(h: map<string, string>, key: string, word: string) {
    key in h && Find(h[key], word).Some?
  }

  predicate IsChunked(h: map<string, string>) { Mentions(h, TRANSFER_ENCODING, "chunked") }

  predicate Closes(h: map<string, string>) { Mentions(h, CONNECTION, "close") }

  /** The length that counts: chunked coding goes before Content-Length. */
  function BodyLength(h: map<string, string>): nat {
    if IsChunked(h) then 0 else
      match MsgBodySize(h)
      case Some(n) => n
      case None => 0
  }

  // ---------- what they mean ----------

  /** A word that is not part of the name, and can be no part of what is around the value, is in
      the line exactly if it is in the value. */
  lemma InLine(name: string, value: string, word: string)
    requires word != "" && ':' !in word && ' ' !in word && '\r' !in word && '\n' !in word && !Contains(name, word)
    ensures Find(name + ": " + value + "\r\n", word).Some? <==> Contains(value, word)
  {
    var line, n := name + ": " + value + "\r\n", |name| + 2;
    assert line[n - 2] == ':' && line[n - 1] == ' ' && line[n + |value|] == '\r' && line[n + |value| + 1] == '\n';
    assert line == name + (": " + value + "\r\n") && line == (name + ": ") + (value + "\r\n");
    forall i | OccursAt(line, word, i) ensures Contains(value, word) {
      NotAcross(line, word, i, n - 2);
      NotAcross(line, word, i, n - 1);
      NotAcross(line, word, i, n + |value|);
      NotAcross(line, word, i, n + |value| + 1);
      if i + |word| <= n - 2 {
        OccursInPrefix(name, ": " + value + "\r\n", word, i);
      } else {
        OccursInSuffix(name + ": ", value + "\r\n", word, i);
        OccursInPrefix(value, "\r\n", word, i - n);
      }
    }
    forall i | OccursAt(value, word, i) ensures OccursAt(line, word, i + n) {
      OccursInPrefix(value, "\r\n", word, i);
      OccursInSuffix(name + ": ", value + "\r\n", word, i + n);
    }
    FindExactly(line, word);
  }

  lemma NotAcross(s: string, word: string, i: int, at: nat)
    requires OccursAt(s, word, i) && at < |s| && s[at] !in word
    ensures at < i || i + |word| <= at
  {
    if i <= at < i + |word| { OccursByte(s, word, i, at - i); }
  }

  /** The second letter, counted from the first, tells the words apart. */
  lemma NotInName(name: string, small: string, word: string)
    requires Spells(name, small) && word != "" && word[0] !in CAPITAL && |word| <= |small|
    requires forall i :: 0 <= i <= |small| - |word| && small[i] == word[0] ==> 1 < |word| && word[1] !in CAPITAL && small[i + 1] != word[1]
    ensures !Contains(name, word)
  {
    hide SMALL, CAPITAL;
    Alphabets();
    forall i | 0 <= i < |name| && name[i] !in CAPITAL ensures name[i] == small[i] { assert Matches(name[i], small[i]); }
    forall i ensures !OccursAt(name, word, i) {
      if OccursAt(name, word, i) {
        OccursByte(name, word, i, 0);
        if 1 < |word| { OccursByte(name, word, i, 1); }
      }
    }
  }

  /** The body is chunked exactly if the last Transfer-Encoding says so. */
  lemma ChunkedExactly(fields: seq<Field>, k: nat)
    ensures LastNamed(fields, k, "transfer-encoding") ==>
              (IsChunked(HeaderMap(map[], fields)) <==> Contains(fields[k].value, "chunked"))
    ensures NoneNamed(fields, "transfer-encoding") ==> !IsChunked(HeaderMap(map[], fields))
  {
    hide HeaderMap, Spells, Find, FindFrom, Contains, CAPITAL;
    SmallNames();
    Alphabets();
    NamedInMap(fields, "transfer-encoding");
    if LastNamed(fields, k, "transfer-encoding") {
      NotInName(fields[k].name, "transfer-encoding", "chunked");
      InLine(fields[k].name, fields[k].value, "chunked");
    }
  }

  /** The connection ends with the body exactly if the last Connection says so. */
  lemma ClosesExactly(fields: seq<Field>, k: nat)
    ensures LastNamed(fields, k, "connection") ==>
              (Closes(HeaderMap(map[], fields)) <==> Contains(fields[k].value, "close"))
    ensures NoneNamed(fields, "connection") ==> !Closes(HeaderMap(map[], fields))
  {
    hide HeaderMap, Spells, Find, FindFrom, Contains, CAPITAL;
    SmallNames();
    Alphabets();
    NamedInMap(fields, "connection");
    if LastNamed(fields, k, "connection") {
      NotInName(fields[k].name, "connection", "close");
      InLine(fields[k].name, fields[k].value, "close");
    }
  }

  /** No Transfer-Encoding, or a last one without that word. */
  ghost predicate SaysPlain(fields: seq<Field>) {
    || NoneNamed(fields, "transfer-encoding")
    || exists k: nat :: LastNamed(fields, k, "transfer-encoding") && !Contains(fields[k].value, "chunked")
  }

  /** The last Content-Length says `n`; or there is none, and `n` is 0. */
  ghost predicate SaysLength(fields: seq<Field>, n: nat) {
    || (NoneNamed(fields, "content-length") && n == 0)
    || (n < 100_000_000_000
        && exists k: nat :: LastNamed(fields, k, "content-length") && fields[k].value == Written(n, DECIMAL))
  }

  /** The length that counts is the one the fields say. */
  lemma LengthSaid(fields: seq<Field>, n: nat)
    requires SaysPlain(fields) && SaysLength(fields, n)
    ensures !IsChunked(HeaderMap(map[], fields)) && BodyLength(HeaderMap(map[], fields)) == n
  {
    hide HeaderMap, Spells, Contains, IsChunked, BodySize, Written, NoneNamed;
    SmallNames();
    if NoneNamed(fields, "transfer-encoding") {
      ChunkedExactly(fields, 0);
    } else {
      var k: nat :| LastNamed(fields, k, "transfer-encoding") && !Contains(fields[k].value, "chunked");
      ChunkedExactly(fields, k);
    }
    if NoneNamed(fields, "content-length") && n == 0 {
      NamedInMap(fields, "content-length");
    } else {
      var k: nat :| LastNamed(fields, k, "content-length") && fields[k].value == Written(n, DECIMAL);
      LengthOfFields(fields, k, n);
    }
  }

  datatype HttpResponse = HttpResponse(headerStr: string, headers: map<string, string>, chunked: bool, bodySize: nat)

  /** What parser_headers makes of an empty block. */
  const NO_HEADERS := HttpResponse("", map[], false, 0)

  lemma NoHeaders()
    ensures !IsChunked(map[]) && BodyLength(map[]) == 0
  {
  }

  /** The headers are those in the bytes that get_some shows; as many as the block has are
      consumed. */
  method ParserHeaders(w: Memory, headerEnd: nat, ghost fields: seq<Field>) returns (r: Option<HttpResponse>)
    requires w.Valid() && w.State().Reachable() && |w.blocks| <= 1
    requires Lines(Take(Visible(w.State()), headerEnd))
    requires Wrap(headerEnd + 2) <= |w.Unread()|
    modifies w`blocks, w`readIndex
    ensures w.Valid() && (w.blocks == [] || w.blocks == old(w.blocks))
    ensures Visible(old(w.State())) == "" ==> r == Some(NO_HEADERS)
    ensures AreReadable(fields) && Take(Visible(old(w.State())), headerEnd) == Print(fields) ==>
              r.Some? && r.value.headers == HeaderMap(map[], fields)
    ensures r.Some? <==> exists h :: BlockReads(Take(Visible(old(w.State())), headerEnd), h)
    ensures r.Some? ==>
              && BlockReads(Take(Visible(old(w.State())), headerEnd), r.value.headers)
              && r.value.headerStr == Take(Visible(old(w.State())), Wrap(headerEnd + 2))
              && r.value.chunked == IsChunked(r.value.headers) && r.value.bodySize == BodyLength(r.value.headers)
              && w.Stream() == old(w.Stream())[Wrap(headerEnd + 2)..]
              && w.readIndex == old(w.readIndex) + Wrap(headerEnd + 2)
    ensures r.None? ==> w.State() == old(w.State())
  {
    hide Buffer.Valid, Buffer.Unread, Find, FindFrom, Erase, Lines, Print, AreReadable, Wrap, MsgBodySize, Visible, HeaderMap;
    NoHeaders();
    ghost var block := Take(Visible(w.State()), headerEnd);
    ghost var given := if !(AreReadable(fields) && block == Print(fields)) && exists h :: BlockReads(block, h) then ReadingOf(block)
                       else fields;
    var sv := w.GetSome();
    var headerStr := Take(sv, Wrap(headerEnd + 2));
    sv := Take(sv, headerEnd);
    ghost var read;
    var ok, headers;
    ok, headers, read := ParserHeader(sv, map[], given);
    if !ok {
      return None;
    }
    assert BlockReads(block, headers);
    EraseLone(w.blocks, w.readIndex + Wrap(headerEnd + 2));
    var _ := w.RemoveSome(Wrap(headerEnd + 2));
    if IsChunked(headers) {
      return Some(HttpResponse(headerStr, headers, true, 0));
    }
    return Some(HttpResponse(headerStr, headers, false, BodyLength(headers)));
  }

  /** A reading of an accepted block. */
  ghost function ReadingOf(block: string): (fields: seq<Field>)
    requires exists h :: BlockReads(block, h)
    ensures AreReadable(fields) && block == Print(fields)
  {
    var fields :| AreReadable(fields) && block == Print(fields);
    fields
  }

  // ---------- relaying a response ----------

  lemma HeadRegrouped(line: string, c: string, p: string, tail: string)
    ensures (line + c + p + c) + tail == line + c + ("" + p + c + tail)
    ensures (line + c + p + c + tail)[|line| + |c|..][..|p|] == p
  {
    assert (line + c + p + c + tail)[|line| + |c|..] == p + c + tail;
  }

  lemma HeadFacts(line: string, fields: seq<Field>, tail: string)
    requires '\r' !in line && WellFormed(fields)
    ensures var s := Head(line, fields) + tail;
            && Find(s, END).Some? && FirstEnd(s, END) == |Head(line, fields)|
            && LineLength(s) == |line| + 2 && |Head(line, fields)| == |line| + 2 + |Print(fields)| + 2
            && s[|line| + 2..][..|Print(fields)|] == Print(fields)
  {
    var s := Head(line, fields) + tail;
    HeadEnd(line, [], fields, tail);
    HeadRegrouped(line, CRLF, Print(fields), tail);
    assert PrintFolds([]) == "";
    hide Find, FindFrom, Print;
    assert s == line + CRLF + AfterLine([], fields, tail);
    FindAfter(s, CRLF, line, AfterLine([], fields, tail), '\r');
  }

  lemma HeaderBlock(s: string, l: nat, headerEnd: nat, unread: string)
    requires l + headerEnd <= |s| && unread <= s[l..] && headerEnd <= |unread|
    ensures Take(unread, headerEnd) == s[l..l + headerEnd] == s[l..][..headerEnd]
  {
  }

  /** Complete: the proxy goes on as after a whole response (Chunked.ClosedExactly says when
      that is one). Malformed: the head or a chunk was refused. Unending: bytes are missing
      and the loop reads for ever, see Outcome. */
  datatype RelayEnd = Complete | Malformed | Unending

  function EndOf(r: Chunked.ChunkOutcome): RelayEnd {
    match r
    case Relayed(_) => Complete
    case Failed(_) => Malformed
    case Unending(_) => RelayEnd.Unending
  }

  /** A body, of which get_some shows `v`: how it goes by its coding. */
  ghost predicate BodyGoes(resp: HttpResponse, closed: bool, chunks: seq<Chunked.Chunk>, rest: string, unread: string, incoming: string,
                           at: nat, v: string, end: RelayEnd, r: Chunked.ChunkOutcome, text: string, left: string, u: string)
  {
    if resp.chunked then end == EndOf(r) && Chunked.Promise(chunks, rest, unread, incoming, at, r, text, left, u)
    else if resp.bodySize > 0 then
      && end == (if resp.bodySize <= |v + incoming| then Complete else Unending)
      && text == Take(v + incoming, resp.bodySize) && |text| <= |unread + incoming| && left == (unread + incoming)[|text|..]
      && (v == unread ==> u == if |text| < |unread| then unread[|text|..] else "")
    else if closed then
      && end == Complete && text == v + incoming && |text| <= |unread + incoming| && left == (unread + incoming)[|text|..]
    else end == Complete && text == "" && left == unread + incoming && u == unread
  }

  /** The body of a response whose head has been forwarded, and how its chunks went. */
  method RelayBody(w: Memory, ss: Memory, resp: HttpResponse, ghost chunks: seq<Chunked.Chunk>, ghost rest: string)
    returns (end: RelayEnd, ghost text: string, ghost r: Chunked.ChunkOutcome)
    requires w != ss && w.Valid() && w.Fits()
    modifies w`blocks, w`readIndex, w`writeIndex, w`readOk, w`incoming, ss`outgoing
    ensures w.Valid() && ss.outgoing == old(ss.outgoing) + text
    ensures BodyGoes(resp, old(w.closed), chunks, rest, old(w.Unread()), old(w.incoming), old(w.readIndex),
                     Visible(old(w.State())), end, r, text, w.Stream(), w.Unread())
  {
    hide Buffer.Valid, Buffer.Unread, Chunked.Promise, Find, Merge, Visible;
    r := Chunked.Failed(0);
    UnreadOnly(w);
    if resp.chunked {
      var how;
      how, text := Chunked.TransferChunk(w, ss, chunks, rest);
      r := how;
      end := EndOf(how);
    } else if resp.bodySize > 0 {
      var t;
      t, text := TransferMem(w, ss, resp.bodySize);
      end := if t.Done? then Complete else Unending;
    } else if w.closed {
      text := RelayToEnd(w, ss);
      end := Complete;
    } else {
      end, text := Complete, "";
    }
  }

  lemma UnreadOnly(w: Memory)
    requires w.Valid() && w.Fits()
    ensures w.State().Reachable() && |Visible(w.State())| <= |w.Unread()|
  {
    VisibleExact(w.State());
  }

  /** A body without a length: what get_some shows, and everything until the peer closes. */
  method RelayToEnd(w: Memory, ss: Memory) returns (ghost text: string)
    requires w != ss && w.Valid() && w.State().Reachable()
    modifies w`blocks, w`readIndex, w`writeIndex, w`readOk, w`incoming, ss`outgoing
    ensures w.Valid() && w.incoming == "" && ss.outgoing == old(ss.outgoing) + text
    ensures text == Visible(old(w.State())) + old(w.incoming)
    ensures |text| <= |old(w.Stream())| && w.Stream() == old(w.Stream())[|text|..]
  {
    hide Buffer.Valid, Buffer.Unread, Merge, Load, Remove, Visible, BlockBuffer.GetSome;
    ghost var sent, incoming, all := ss.outgoing, w.incoming, w.Stream();
    VisibleExact(w.State());
    MergeVisible(w.State());
    var _ := w.MergeSome();
    var str := w.GetSome();
    ghost var v := str;
    if str != "" {
      WriteThenConsume(w, ss, str);
    }
    text := v;
    while true
      invariant w.Valid() && ss.outgoing == sent + text && text + w.incoming == v + incoming
      invariant |text| <= |all| && w.Stream() == all[|text|..]
      decreases |w.incoming|
    {
      ghost var before := w.incoming;
      str := w.AsyncLoadSome(LOAD_SIZE);
      ReadMore(sent, all, text, str, before, w.incoming);
      if str == "" {
        ss.AsyncWriteAll(str);
        break;
      }
      WriteThenConsume(w, ss, str);
      text := text + str;
    }
  }

  lemma ReadMore(sent: string, all: string, text: string, str: string, before: string, rest: string)
    requires |text| <= |all| && before == str + rest
    ensures text + str + rest == text + before && sent + text + str == sent + (text + str)
    ensures |str| <= |all[|text|..]| ==> all[|text|..][|str|..] == all[|text + str|..]
    ensures before == "" ==> text + before == text && sent + text + str == sent + text
  {
  }

  /** The header block of a head at position `at` reads like this, or is not shown. */
  ghost predicate HeadReads(s: string, at: nat, h: map<string, string>) {
    && Find(s, END).Some? && LineLength(s) + 2 <= FirstEnd(s, END)
    && if Hits(at, at + LineLength(s)) then BlockReads(s[LineLength(s)..FirstEnd(s, END) - 2], h) else h == map[]
  }

  /** Reads a head: parser_response_line, then parser_headers. When the peer closes before
      the head is complete both succeed with nothing, and what had arrived is dropped. When
      get_some does not show the header block, it is consumed all the same. */
  method ReadHead(w: Memory, ghost line: string, ghost fields: seq<Field>) returns (first: string, resp: Option<HttpResponse>)
    requires w.Valid() && w.blocks == [] && w.Unread() == "" && w.Fits()
    modifies w`blocks, w`readIndex, w`writeIndex, w`readOk, w`incoming
    ensures w.Valid() && w.Fits() && Lone(w.blocks, old(w.readIndex))
    ensures resp.Some? ==> resp.value.chunked == IsChunked(resp.value.headers)
                           && resp.value.bodySize == BodyLength(resp.value.headers)
    ensures Find(old(w.incoming), END).None? ==>
              first == "" && resp == Some(NO_HEADERS) && w.Stream() == "" && w.readIndex == old(w.readIndex)
    ensures Find(old(w.incoming), END).Some? ==>
              var s, e, at := old(w.incoming), FirstEnd(old(w.incoming), END), old(w.readIndex);
              var l := LineLength(s);
              && l <= e <= |s| && first == s[..l]
              && (resp.Some? ==> w.Stream() == s[e..] && w.readIndex == at + e && |w.Unread()| < w.most)
              && (Hits(at, at + l) && resp.Some? ==> first + resp.value.headerStr == s[..e])
              && (!Hits(at, at + l) ==> resp == Some(NO_HEADERS))
              && (resp.Some? <==> exists h :: HeadReads(s, at, h)) && (resp.Some? ==> HeadReads(s, at, resp.value.headers))
    ensures '\r' !in line && WellFormed(fields) && Head(line, fields) <= old(w.incoming)
            && Hits(old(w.readIndex), old(w.readIndex) + |line| + 2) ==>
              && resp.Some? && resp.value.headers == HeaderMap(map[], fields)
              && Find(old(w.incoming), END).Some? && FirstEnd(old(w.incoming), END) == |Head(line, fields)|
  {
    hide Buffer.Valid, Buffer.Unread, Find, FindFrom, FirstEnd, Wrap, OccursAt, Visible, Hits;
    hide Headers.Print, Headers.WellFormed, HeaderMap, IsChunked, BodyLength, LineLength, Lines, Head, Take, HeadReads, BlockReads;
    hide AreReadable;
    ghost var s, at := w.incoming, w.readIndex;
    HeadThere(s, line, fields);
    if WellFormed(fields) { ValidIsReadable(fields); }
    var headerEnd;
    first, headerEnd := ParserResponseLine(w);
    UnreadOnly(w);
    LoneShows(w.State(), at);
    EmptyBlock(headerEnd);
    ghost var u := w.Unread();
    if Find(s, END).Some? {
      UnreadIsPrefix(w);
      WrapHere(headerEnd + 2);
      HeadShown(s, first, headerEnd, u, Visible(w.State()));
      ReadsIs(s, at, |first|, headerEnd, Visible(w.State()));
      Rejoin(s, |first|, headerEnd + 2);
    }
    resp := ParserHeaders(w, headerEnd, fields);
    if resp.Some? && Find(s, END).Some? { UnreadLeft(u, w.Unread(), w.incoming, headerEnd + 2); }
  }

  /** A stream that starts with this head. */
  lemma HeadThere(s: string, line: string, fields: seq<Field>)
    ensures '\r' !in line && WellFormed(fields) && Head(line, fields) <= s ==>
              && Find(s, END).Some? && FirstEnd(s, END) == |Head(line, fields)| == |line| + 2 + |Print(fields)| + 2
              && LineLength(s) == |line| + 2 && s[|line| + 2..][..|Print(fields)|] == Print(fields)
  {
    hide Find, FindFrom, FirstEnd, Headers.Print, Headers.WellFormed, LineLength, Head;
    if '\r' !in line && WellFormed(fields) && Head(line, fields) <= s {
      var tail := s[|Head(line, fields)|..];
      assert s == Head(line, fields) + tail;
      HeadFacts(line, fields, tail);
    }
  }

  lemma ReadsIs(s: string, at: nat, l: nat, headerEnd: nat, v: string)
    requires Find(s, END).Some? && l == LineLength(s) && l + headerEnd + 2 == FirstEnd(s, END) <= |s|
    requires if Hits(at, at + l) then Take(v, headerEnd) == s[l..][..headerEnd] else v == ""
    ensures forall h :: HeadReads(s, at, h) <==> BlockReads(Take(v, headerEnd), h)
  {
    hide Find, FindFrom, FirstEnd, LineLength, Hits;
    assert s[l..][..headerEnd] == s[l..FirstEnd(s, END) - 2];
    EmptyReads();
  }

  lemma EmptyTake(headerEnd: nat)
    ensures Take("", headerEnd) == ""
  {
  }

  lemma EmptyReads()
    ensures forall h :: BlockReads("", h) <==> h == map[]
  {
    hide AreReadable;
    NothingRead("", map[]);
    forall h | BlockReads("", h) ensures h == map[] {
      var fields :| AreReadable(fields) && "" == Print(fields) && h == HeaderMap(map[], fields);
      Headers.PrintNothing(fields);
    }
    assert AreReadable([]) && "" == Print([]) && map[] == HeaderMap(map[], []);
  }

  /** What get_some shows of a head behind its first line, when it shows all or nothing. */
  lemma HeadShown(s: string, first: string, headerEnd: nat, unread: string, v: string)
    requires first <= s && |first| + headerEnd + 2 <= |s| && unread <= s[|first|..] && headerEnd + 2 <= |unread|
    requires Lines(s[|first|..|first| + headerEnd]) && (v == unread || v == "")
    ensures Lines(Take(v, headerEnd))
    ensures v == unread ==>
              && Take(v, headerEnd) == s[|first|..][..headerEnd]
              && first + Take(v, headerEnd + 2) == s[..|first| + headerEnd + 2]
  {
    hide Lines, Take;
    EmptyBlock(headerEnd);
    HeaderBlock(s, |first|, headerEnd, unread);
    BlockText(unread, s[|first|..], headerEnd + 2);
    Rejoin(s, |first|, headerEnd + 2);
  }

  lemma UnreadLeft(before: string, after: string, incoming: string, n: nat)
    requires n <= |before| && after + incoming == (before + incoming)[n..]
    ensures |after| == |before| - n
  {
  }

  lemma WrapHere(n: nat)
    ensures n < SIZE_RANGE ==> Wrap(n) == n
  {
  }

  lemma BlockText(unread: string, stream: string, n: nat)
    requires unread <= stream && n <= |unread|
    ensures Take(unread, n) == stream[..n]
  {
  }

  lemma Rejoin(s: string, l: nat, n: nat)
    requires l + n <= |s|
    ensures s[..l] + s[l..][..n] == s[..l + n] && s[l..][n..] == s[l + n..]
  {
  }

  /** The stream is a head and what comes after it. */
  ghost predicate Starts(s: string, line: string, fields: seq<Field>, after: string) {
    '\r' !in line && WellFormed(fields) && s == Head(line, fields) + after
  }

  lemma AfterHead(s: string, line: string, fields: seq<Field>, after: string)
    ensures Starts(s, line, fields, after) ==>
              && '\r' !in line && WellFormed(fields)
              && Head(line, fields) <= s && s[|Head(line, fields)|..] == after && s[..|Head(line, fields)|] == Head(line, fields)
              && Find(s, END).Some? && FirstEnd(s, END) == |Head(line, fields)| && LineLength(s) == |line| + 2
              && s[..|line| + 2] == line + CRLF
  {
    if Starts(s, line, fields, after) {
      HeadFacts(line, fields, after);
      hide Headers.WellFormed, Find, FindFrom;
      assert Head(line, fields)[..|line| + 2] == line + CRLF;
    }
  }

  lemma UnreadIsPrefix(w: Memory)
    requires w.Valid()
    ensures w.Unread() <= w.Stream()
  {
  }

  lemma EmptyBlock(headerEnd: nat)
    ensures Lines(Take("", headerEnd)) && Wrap(SIZE_RANGE) == 0 && Take("", headerEnd + 2) == ""
  {
  }

  /** A head read from the stream `s` at position `at`, and what was sent of it. */
  ghost predicate HeadGoes(s: string, at: nat, resp: HttpResponse, text: string, left: string, next: nat) {
    && resp.chunked == IsChunked(resp.headers) && resp.bodySize == BodyLength(resp.headers)
    && if Find(s, END).None? then resp == NO_HEADERS && text == "" && left == "" && next == at
       else
         var l, e := LineLength(s), FirstEnd(s, END);
         && l <= e <= |s| && left == s[e..] && next == at + e
         && (Hits(at, at + l) ==> text == s[..e]) && (!Hits(at, at + l) ==> resp == NO_HEADERS && text == s[..l])
  }

  /** The head of a response: read, and what get_some shows of it sent on. */
  method RelayHead(w: Memory, ss: Memory, ghost line: string, ghost fields: seq<Field>)
    returns (resp: Option<HttpResponse>, ghost text: string)
    requires w != ss && w.Valid() && w.blocks == [] && w.Unread() == "" && w.Fits()
    modifies w, ss
    ensures w.Valid() && w.Fits() && Lone(w.blocks, old(w.readIndex))
    ensures ss.outgoing == old(ss.outgoing) + text && (resp.None? ==> text == "")
    ensures resp.None? ==> Hits(old(w.readIndex), old(w.readIndex) + LineLength(old(w.incoming)))
    ensures resp.None? <==> Find(old(w.incoming), END).Some? && !exists h :: HeadReads(old(w.incoming), old(w.readIndex), h)
    ensures resp.Some? && Find(old(w.incoming), END).Some? ==> HeadReads(old(w.incoming), old(w.readIndex), resp.value.headers)
    ensures resp.Some? ==>
              && w.closed == (old(w.closed) || Closes(resp.value.headers))
              && (Find(old(w.incoming), END).Some? ==>
                    |w.Unread()| < w.most && FirstEnd(old(w.incoming), END) + |w.Unread()| <= |old(w.incoming)|)
              && HeadGoes(old(w.incoming), old(w.readIndex), resp.value, text, w.Stream(), w.readIndex)
    ensures '\r' !in line && WellFormed(fields) && Head(line, fields) <= old(w.incoming)
            && Hits(old(w.readIndex), old(w.readIndex) + |line| + 2) ==>
              resp.Some? && resp.value.headers == HeaderMap(map[], fields)
  {
    hide Buffer.Valid, Buffer.Unread, Find, FindFrom, FirstEnd, Closes, Hits, LineLength;
    hide Headers.Print, Headers.WellFormed, HeaderMap, IsChunked, BodyLength, Head, OccursAt, HeadReads;
    NotClosing();
    text := "";
    var first;
    first, resp := ReadHead(w, line, fields);
    if resp.None? {
      assert ss.outgoing == ss.outgoing + "";
      return;
    }
    if Closes(resp.value.headers) {
      w.Close();
      ss.Close();
    }
    text := first + resp.value.headerStr;
    ss.AsyncWriteAll(first + resp.value.headerStr);
  }

  lemma NotClosing()
    ensures !Closes(map[])
  {
  }

  /** Below 2 GiB everything is sent in order. */
  lemma InOrder(s: string, at: nat, resp: HttpResponse, head: string, unread: string, incoming: string, now: nat, closed: bool,
                v: string, chunks: seq<Chunked.Chunk>, rest: string, end: RelayEnd, r: Chunked.ChunkOutcome, text: string,
                left: string, u: string)
    requires HeadGoes(s, at, resp, head, unread + incoming, now)
    requires BodyGoes(resp, closed, chunks, rest, unread, incoming, now, v, end, r, text, left, u)
    requires v == if Hits(at, now) then unread else ""
    ensures Find(s, END).None? ==> head + text == ""
    ensures at + |s| <= INT_LIMIT ==> head + text <= s
  {
    hide Find, FindFrom, IsChunked, BodyLength, Chunked.CanRelay;
    NoHeaders();
    if Find(s, END).Some? && at + |s| <= INT_LIMIT {
      if now < INT_LIMIT { HitsBelow(at, now); }
      assert v + incoming == unread + incoming;
      assert text <= unread + incoming;
      LineShown(s, at);
      assert s == s[..FirstEnd(s, END)] + s[FirstEnd(s, END)..];
    }
  }

  lemma LineShown(s: string, at: nat)
    requires Find(s, END).Some? && at + |s| <= INT_LIMIT
    ensures LineLength(s) < |s| && Hits(at, at + LineLength(s))
  {
    SplitHead(s, FirstEnd(s, END));
    HitsBelow(at, at + LineLength(s));
  }

  /** What becomes of a body, the first bytes of `after`, by its headers: its end, what is sent
      of it, and what is left. It starts at position `at` in a block that begins at `begin`, of
      which `came` bytes came with the head. */
  ghost predicate BodySent(begin: nat, at: nat, came: nat, h: map<string, string>, closed: bool, after: string,
                           chunks: seq<Chunked.Chunk>, rest: string, end: RelayEnd, text: string, left: string, u: string)
  {
    && came <= |after|
    // if get_some does not show what came with the head, it is overtaken by what follows it
    && var shown := if Hits(begin, at) then after else after[came..];
    if IsChunked(h) then
      // chunks go through, up to their closing CRLFCRLF at least; if nothing follows, exactly
      // when the last size line starts below 2 GiB
      && (Chunked.WellFormed(chunks) && after == Chunked.Encode(chunks) + rest && at + |Chunked.Data(chunks)| < INT_LIMIT ==>
            && end == Complete && Chunked.Encode(chunks) <= text <= after
            && (text == Chunked.Encode(chunks) || u == "") && left == after[|text|..])
      && (Chunked.WellFormed(chunks) && after == Chunked.Encode(chunks) && at + |after| <= INT_RANGE ==>
            (text == after <==> at + |Chunked.Data(chunks)| < INT_LIMIT))
    else if BodyLength(h) > 0 then
      // a body of known length goes byte for byte
      && end == (if BodyLength(h) <= |shown| then Complete else Unending)
      && text == Take(shown, BodyLength(h)) && left == after[|text|..]
      && (Hits(begin, at) ==> u == if |text| < came then after[|text|..came] else "")
    else if closed then
      // without a length, everything up to the close
      end == Complete && text == shown && left == after[|text|..]
    else
      end == Complete && text == "" && left == after && u == after[..came]
  }

  lemma BodySentIs(begin: nat, resp: HttpResponse, closed: bool, chunks: seq<Chunked.Chunk>, rest: string, unread: string,
                   incoming: string, at: nat, v: string, end: RelayEnd, r: Chunked.ChunkOutcome, text: string, left: string, u: string)
    requires BodyGoes(resp, closed, chunks, rest, unread, incoming, at, v, end, r, text, left, u)
    requires resp.chunked == IsChunked(resp.headers) && resp.bodySize == BodyLength(resp.headers)
    requires v == if Hits(begin, at) then unread else ""
    ensures BodySent(begin, at, |unread|, resp.headers, closed, unread + incoming, chunks, rest, end, text, left, u)
  {
    hide IsChunked, BodyLength, Hits, Chunked.Promise, Chunked.WellFormed, Chunked.Encode, Chunked.Data;
    ShownThere(unread, incoming, v);
    if resp.chunked {
      ChunksSent(chunks, rest, unread, incoming, at, r, text, left, u);
    }
  }

  lemma ShownThere(unread: string, incoming: string, v: string)
    requires v == unread || v == ""
    ensures var after := unread + incoming;
            && (v == "" ==> v + incoming == after[|unread|..]) && after[..|unread|] == unread
            && forall n: nat :: n < |unread| ==> after[n..|unread|] == unread[n..]
  {
  }

  lemma ChunksSent(chunks: seq<Chunked.Chunk>, rest: string, unread: string, incoming: string, at: nat, r: Chunked.ChunkOutcome,
                   text: string, left: string, u: string)
    requires Chunked.Promise(chunks, rest, unread, incoming, at, r, text, left, u)
    ensures var all := unread + incoming;
            && (Chunked.WellFormed(chunks) && all == Chunked.Encode(chunks) + rest && at + |Chunked.Data(chunks)| < INT_LIMIT ==>
                  && EndOf(r) == Complete && Chunked.Encode(chunks) <= text <= all
                  && (text == Chunked.Encode(chunks) || u == "") && left == all[|text|..])
            && (Chunked.WellFormed(chunks) && all == Chunked.Encode(chunks) && at + |all| <= INT_RANGE ==>
                  (text == all <==> at + |Chunked.Data(chunks)| < INT_LIMIT))
  {
    hide Chunked.CanRelay, Chunked.WellFormed, Chunked.Encode, Chunked.Data;
    var all := unread + incoming;
    if all == Chunked.Encode(chunks) && Chunked.WellFormed(chunks) && at + |all| <= INT_RANGE {
      Chunked.WholeExactly(chunks, unread, incoming, at, r, text);
    }
  }

  /** So many bytes behind the head can be read with it. */
  ghost predicate CanCome(s: string, most: Amount, came: nat) {
    && Find(s, END).Some? && FirstEnd(s, END) + came <= |s|
    && CanRead("", s, END, most, s[..FirstEnd(s, END) + came])
  }

  /** Fewer than one read can bring, and any number of those. */
  lemma ComesExactly(s: string, most: Amount, came: nat)
    requires Find(s, END).Some?
    ensures CanCome(s, most, came) <==> came < most && FirstEnd(s, END) + came <= |s|
  {
    hide CanRead, Find, FindFrom, FirstEnd;
    if FirstEnd(s, END) + came <= |s| { ReadExactly(s, END, most, s[..FirstEnd(s, END) + came]); }
  }

  /** What becomes of a response, a head and then `after`, that starts at position `at` of a
      connection: its end, what the client gets, and what is left. When get_some does not show
      the header block, that is the first line alone. */
  ghost predicate Relays(at: nat, came: nat, closed: bool, line: string, fields: seq<Field>, after: string, chunks: seq<Chunked.Chunk>,
                         rest: string, end: RelayEnd, text: string, left: string, u: string)
  {
    var head, shown := Head(line, fields), Hits(at, at + |line| + 2);
    var h, sent := if shown then HeaderMap(map[], fields) else map[], if shown then head else line + CRLF;
    sent <= text
    && BodySent(at, at + |head|, came, h, closed || Closes(h), after, chunks, rest, end, text[|sent|..], left, u)
  }

  /** A head as it is written. */
  function HeadText(line: string, fields: seq<Field>): string {
    line + "\r\n" + FieldsText(fields) + "\r\n"
  }

  /** Below 2 GiB the head goes through, and the body as its fields say. */
  lemma RelaysBelow(at: nat, came: nat, closed: bool, line: string, fields: seq<Field>, after: string, chunks: seq<Chunked.Chunk>,
                    rest: string, end: RelayEnd, text: string, left: string, u: string)
    requires Relays(at, came, closed, line, fields, after, chunks, rest, end, text, left, u)
    requires at + |HeadText(line, fields)| < 0x8000_0000
    ensures var head, h := HeadText(line, fields), HeaderMap(map[], fields);
            && Hits(at, at + |head|) && head <= text && text == head + text[|head|..]
            && BodySent(at, at + |head|, came, h, closed || Closes(h), after, chunks, rest, end, text[|head|..], left, u)
  {
    hide Head, HeadText, HeaderMap, Closes, BodySent, Hits;
    HeadIsText(line, fields);
    HitsBelow(at, at + |line| + 2);
    HitsBelow(at, at + |Head(line, fields)|);
  }

  /** A response whose fields say its length, below 2 GiB: the client gets the head and so many
      bytes. */
  lemma LengthRelayed(at: nat, came: nat, closed: bool, line: string, fields: seq<Field>, after: string, chunks: seq<Chunked.Chunk>,
                      rest: string, end: RelayEnd, text: string, left: string, u: string, n: nat)
    requires Relays(at, came, closed, line, fields, after, chunks, rest, end, text, left, u)
    requires SaysPlain(fields) && SaysLength(fields, n) && n > 0 && at + |HeadText(line, fields)| < 0x8000_0000
    ensures n <= |after| ==> end == Complete && text == HeadText(line, fields) + after[..n] && left == after[n..]
    ensures n > |after| ==> end == Unending && text == HeadText(line, fields) + after && left == ""
  {
    hide HeadText, IsChunked, BodyLength, HeaderMap, SaysPlain, SaysLength, Closes, Relays, Hits;
    RelaysBelow(at, came, closed, line, fields, after, chunks, rest, end, text, left, u);
    LengthSaid(fields, n);
    if n == |after| { assert after[..n] == after; }
  }

  /** One whose fields say that it is chunked, with a body written as the standard has it. */
  lemma ChunksRelayed(at: nat, came: nat, closed: bool, line: string, fields: seq<Field>, after: string, datas: seq<string>,
                      digits: string, rest: string, end: RelayEnd, text: string, left: string, u: string, k: nat)
    requires Sized(datas) && (digits == HEX_SMALL || digits == HEX_CAPITAL)
    requires Relays(at, came, closed, line, fields, after, Chunked.ChunksOf(datas, digits), rest, end, text, left, u)
    requires LastNamed(fields, k, "transfer-encoding") && Contains(fields[k].value, "chunked")
    requires after == ChunkedText(datas, digits) + rest && at + |HeadText(line, fields)| + |ChunkedText(datas, digits)| <= 0x8000_0000
    ensures end == Complete && HeadText(line, fields) + ChunkedText(datas, digits) <= text <= HeadText(line, fields) + after
    ensures text == HeadText(line, fields) + ChunkedText(datas, digits) || u == ""
  {
    hide HeadText, IsChunked, BodyLength, HeaderMap, Closes, LastNamed, Chunked.ChunksOf, ChunkedText, Chunked.Data;
    hide Chunked.WellFormed, Chunked.Encode, Relays, Hits, Contains;
    Chunked.WrittenBody(datas, digits);
    DataShorter(Chunked.ChunksOf(datas, digits));
    RelaysBelow(at, came, closed, line, fields, after, Chunked.ChunksOf(datas, digits), rest, end, text, left, u);
    ChunkedExactly(fields, k);
    BothFronts(HeadText(line, fields), ChunkedText(datas, digits), text, after);
  }

  lemma BothFronts(head: string, body: string, text: string, after: string)
    requires head <= text
    ensures body <= text[|head|..] <= after ==> head + body <= text <= head + after
    ensures text[|head|..] == body ==> text == head + body
  {
  }

  lemma DataShorter(chunks: seq<Chunked.Chunk>)
    ensures |Chunked.Data(chunks)| < |Chunked.Encode(chunks)|
  {
    hide Chunked.Data;
  }

  /** One without a length whose connection is closed after it. */
  lemma RestRelayed(at: nat, came: nat, closed: bool, line: string, fields: seq<Field>, after: string, chunks: seq<Chunked.Chunk>,
                    rest: string, end: RelayEnd, text: string, left: string, u: string, k: nat)
    requires Relays(at, came, closed, line, fields, after, chunks, rest, end, text, left, u)
    requires SaysPlain(fields) && SaysLength(fields, 0) && at + |HeadText(line, fields)| < 0x8000_0000
    requires closed || (LastNamed(fields, k, "connection") && Contains(fields[k].value, "close"))
    ensures end == Complete && text == HeadText(line, fields) + after
  {
    hide HeadText, IsChunked, BodyLength, HeaderMap, SaysPlain, SaysLength, Closes, LastNamed, Relays, Hits, Contains;
    RelaysBelow(at, came, closed, line, fields, after, chunks, rest, end, text, left, u);
    LengthSaid(fields, 0);
    ClosesExactly(fields, k);
  }

  lemma HeadIsText(line: string, fields: seq<Field>)
    ensures Head(line, fields) == HeadText(line, fields) && |line| + 2 <= |Head(line, fields)|
  {
    FieldsAreText(fields);
  }

  lemma RelaysIs(s: string, at: nat, closed0: bool, line: string, fields: seq<Field>, after: string, resp: HttpResponse, head: string,
                 unread: string, incoming: string, now: nat, closed: bool, v: string, chunks: seq<Chunked.Chunk>, rest: string,
                 end: RelayEnd, r: Chunked.ChunkOutcome, text: string, left: string, u: string)
    requires Starts(s, line, fields, after) && closed == (closed0 || Closes(resp.headers))
    requires HeadGoes(s, at, resp, head, unread + incoming, now)
    requires Hits(at, at + |line| + 2) ==> resp.headers == HeaderMap(map[], fields)
    requires BodyGoes(resp, closed, chunks, rest, unread, incoming, now, v, end, r, text, left, u)
    requires v == if Hits(at, now) then unread else ""
    ensures Relays(at, |unread|, closed0, line, fields, after, chunks, rest, end, head + text, left, u)
  {
    hide Find, FindFrom, FirstEnd, LineLength, IsChunked, BodyLength, Closes, Hits, Starts, Head, Headers.WellFormed, HeaderMap;
    hide Chunked.Promise, BodySent;
    AfterHead(s, line, fields, after);
    NoHeaders();
    NotClosing();
    assert unread + incoming == after && (head + text)[|head|..] == text;
    BodySentIs(at, resp, closed, chunks, rest, unread, incoming, now, v, end, r, text, left, u);
  }

  /** One response, from the service's connection `w` to the client's connection `ss`; `text`
      is what the client gets. The ghost parameters are any reading of the stream as a head
      and what follows, and of that as chunks. */
  method RelayResponse(w: Memory, ss: Memory, ghost line: string, ghost fields: seq<Field>, ghost after: string,
                       ghost chunks: seq<Chunked.Chunk>, ghost rest: string)
    returns (end: RelayEnd, ghost text: string, ghost came: nat)
    requires w != ss && w.Valid() && w.blocks == [] && w.Unread() == "" && w.Fits()
    modifies w, ss
    // without a head nothing; below 2 GiB, whatever arrives, the stream's first bytes
    ensures w.Valid() && ss.outgoing == old(ss.outgoing) + text
    ensures Find(old(w.incoming), END).None? ==> text == ""
    // when the header block does not read as fields nothing
    ensures Find(old(w.incoming), END).Some? && !(exists h :: HeadReads(old(w.incoming), old(w.readIndex), h)) ==>
              end == Malformed && text == ""
    ensures old(w.readIndex) + |old(w.incoming)| <= INT_LIMIT ==> text <= old(w.incoming)
    ensures Starts(old(w.incoming), line, fields, after) ==>
              CanCome(old(w.incoming), w.most, came) &&
              Relays(old(w.readIndex), came, old(w.closed), line, fields, after, chunks, rest, end, text, w.Stream(), w.Unread())
  {
    hide Buffer.Valid, Buffer.Unread, Find, FindFrom, FirstEnd, Closes, Starts, Relays, HeadGoes, BodyGoes;
    hide Headers.WellFormed, HeaderMap, Head, Hits, Visible, CanCome, HeadReads;
    ghost var s, at, closed := w.incoming, w.readIndex, w.closed;
    AfterHead(s, line, fields, after);
    came := 0;
    var resp;
    resp, text := RelayHead(w, ss, line, fields);
    if resp.None? {
      end := Malformed;
      return;
    }
    UnreadOnly(w);
    LoneShows(w.State(), at);
    ghost var head, unread, incoming, now, v := text, w.Unread(), w.incoming, w.readIndex, Visible(w.State());
    came := |unread|;
    if Find(s, END).Some? { ComesExactly(s, w.most, came); }
    ghost var r, alive := Chunked.Failed(0), !w.closed;
    end, text, r := RelayBody(w, ss, resp.value, chunks, rest);
    assert ss.outgoing == old(ss.outgoing) + head + text == old(ss.outgoing) + (head + text);
    InOrder(s, at, resp.value, head, unread, incoming, now, !alive, v, chunks, rest, end, r, text, w.Stream(), w.Unread());
    if Starts(s, line, fields, after) {
      RelaysIs(s, at, closed, line, fields, after, resp.value, head, unread, incoming, now, !alive, v, chunks, rest, end, r, text,
               w.Stream(), w.Unread());
    }
    text := head + text;
  }
}
