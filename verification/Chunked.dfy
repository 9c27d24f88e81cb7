/** http_msg::transfer_chunk: relaying a body in the chunked coding of section 3.6.1 of
    RFC 2616. */
module Chunked {
  import Seqs
  import opened Numerals
  import opened Hex
  import opened Wrappers
  import opened Strings
  import opened BlockBuffer
  import opened SocketMemory
  import opened Kmp
  import opened Transfer
  import opened Closing

  // ---------- chunk sizes ----------

  /** hex_str_to: a leading 0 reads as zero; otherwise the first run that does not start
      with 0, wherever it is, up to 16 digits. None is the exception. */
  function HexStrTo(s: string): Option<nat> {
    if s != "" && s[0] == '0' then Some(0) else SearchHex(s)
  }

  function SearchHex(s: string): Option<nat> {
    if s == "" then None
    else if IsHex(s[0]) && s[0] != '0' then Some(HexValue(HexRun(s, 16)))
    else SearchHex(s[1..])
  }

  /** A size as section 3.6.1 writes it, without leading zeros. */
  predicate IsSize(s: string) {
    0 < |s| <= 16 && AllHex(s) && s[0] != '0'
  }

  /** The bytes of a size line: at most 16, none of them CR or NUL. */
  predicate IsLine(line: string) {
    |line| <= 16 && '\r' !in line && '\0' !in line
  }

  /** A size of at most 16 digits, with an extension or not, is read as its value exactly when
      it has no leading zero, or is zero: "05" is read as the last chunk. */
  lemma SizeReadExactly(digits: string, ext: string)
    requires 0 < |digits| <= 16 && AllHex(digits) && (ext == "" || !IsHex(ext[0]))
    ensures HexStrTo(digits + ext) == Some(HexValue(digits)) <==> digits[0] != '0' || HexValue(digits) == 0
  {
    HexRunIs(digits, ext, 16);
  }

  /** The size is looked for anywhere in the line: the first run of up to 16 digits that does
      not start with 0. */
  lemma {:induction false} SizeAnywhere(before: string, digits: string, rest: string)
    requires (before != "" ==> before[0] != '0') && forall i :: 0 <= i < |before| ==> before[i] == '0' || !IsHex(before[i])
    requires digits != "" && AllHex(digits) && digits[0] != '0' && (rest == "" || !IsHex(rest[0]))
    ensures HexStrTo(before + digits + rest) == Some(HexValue(if |digits| <= 16 then digits else digits[..16]))
  {
    var s := before + digits + rest;
    SearchRun(before, digits, rest);
    if before == "" { assert s[0] == digits[0]; } else { assert s[0] == before[0]; }
  }

  lemma {:induction false} SearchRun(before: string, digits: string, rest: string)
    requires forall i :: 0 <= i < |before| ==> before[i] == '0' || !IsHex(before[i])
    requires digits != "" && AllHex(digits) && digits[0] != '0' && (rest == "" || !IsHex(rest[0]))
    ensures SearchHex(before + digits + rest) == Some(HexValue(if |digits| <= 16 then digits else digits[..16]))
    decreases |before|
  {
    var s := before + digits + rest;
    if before == "" {
      assert s == digits + rest && s[0] == digits[0];
      HexRunIs(digits, rest, 16);
    } else {
      assert s[0] == before[0] && s[1..] == before[1..] + digits + rest;
      SearchRun(before[1..], digits, rest);
    }
  }

  /** Without such a run, and without a 0 in front, there is no size. */
  lemma {:induction false} NoSize(s: string)
    requires forall i :: 0 <= i < |s| ==> !IsHex(s[i])
    ensures HexStrTo(s) == None
  {
    if s != "" {
      assert forall i :: 0 <= i < |s[1..]| ==> s[1..][i] == s[i + 1];
      NoSize(s[1..]);
    }
  }

  // ---------- chunked bodies ----------

  /** One chunk: its size as written, its extension, and its data. The line of the two has at
      most the 16 bytes that the code looks at (LongLineFails). */
  datatype Chunk = Chunk(size: string, ext: string, data: string) {
    predicate Valid() {
      && IsSize(size) && HexValue(size) == |data| > 0
      && (ext != "" ==> ext[0] == ';') && IsLine(Line())
    }

    function Line(): string { size + ext }
  }

  predicate WellFormed(chunks: seq<Chunk>) {
    forall i :: 0 <= i < |chunks| ==> chunks[i].Valid()
  }

  function EncodeChunk(c: Chunk): string {
    c.Line() + CRLF + c.data + CRLF
  }

  /** The chunks themselves; the last size line and what closes the body come after them. */
  function Data(chunks: seq<Chunk>): string {
    if chunks == [] then "" else EncodeChunk(chunks[0]) + Data(chunks[1..])
  }

  function Encode(chunks: seq<Chunk>): string {
    Data(chunks) + (ZERO + CRLF)
  }

  /** Chunks of this data, their sizes written with these digits. */
  function ChunksOf(datas: seq<string>, digits: string): seq<Chunk>
    requires |digits| >= 2
  {
    if datas == [] then [] else [Chunk(Written(|datas[0]|, digits), "", datas[0])] + ChunksOf(datas[1..], digits)
  }

  /** Written as the standard has it, they are well formed, and the body is that text. */
  lemma {:induction false} WrittenBody(datas: seq<string>, digits: string)
    requires Sized(datas) && (digits == HEX_SMALL || digits == HEX_CAPITAL)
    ensures WellFormed(ChunksOf(datas, digits)) && Encode(ChunksOf(datas, digits)) == ChunkedText(datas, digits)
  {
    hide Written, IsHex, HexValue;
    var chunks := ChunksOf(datas, digits);
    if datas == [] {
      assert Encode(chunks) == ChunkedText(datas, digits);
    } else {
      var size, more := Written(|datas[0]|, digits), ChunksOf(datas[1..], digits);
      WrittenInHex(|datas[0]|, digits);
      NoLineEnd(size);
      WrittenBody(datas[1..], digits);
      assert chunks[0].Line() == size && chunks[1..] == more;
      Seqs.Join(EncodeChunk(chunks[0]), Data(more), ZERO + CRLF);
    }
  }

  lemma NoLineEnd(s: string)
    requires AllHex(s)
    ensures '\r' !in s && '\0' !in s && s + "" == s
  {
  }

  // ---------- reading the size line ----------

  /** The C string at the start of `s`. */
  function CStr(s: string): (r: string)
    ensures r <= s
  {
    if s == "" || s[0] == '\0' then "" else [s[0]] + CStr(s[1..])
  }

  lemma CStrKeeps(s: string, t: string)
    requires t <= s && '\0' !in t
    ensures t <= CStr(s)
  {
    if t != "" {
      CStrKeeps(s[1..], t[1..]);
    }
  }

  const LINE_MAX := 18

  /** The bytes a size line is looked for in: the C string in the buffer, or when that is short
      and has no line end, it and the bytes to come, 18 in all. */
  function Window(unread: string, incoming: string): string {
    var c := CStr(unread);
    if |c| >= LINE_MAX || Find(c, CRLF).Some? then c else Take(c + incoming, LINE_MAX)
  }

  /** How many bytes can be in the buffer once a line end was found at `p`: reads stop with the
      one that brings it. */
  predicate Reads(unread: string, incoming: string, p: nat, k: nat) {
    var c := |CStr(unread)|;
    if p + 2 <= c then k == |unread|
    else |unread| + (p + 2 - c) <= k <= |unread + incoming| && k <= |unread| + (p + 1 - c) + LOAD_SIZE
  }

  lemma LineHere(unread: string, incoming: string, p: nat)
    requires Find(CStr(unread), CRLF) == Some(p)
    ensures Reads(unread, incoming, p, |unread|)
  {
    hide CStr;
  }

  lemma MoreBytes(cs: string, s: string, some: string)
    requires cs == Take(s, LINE_MAX) && |cs| < LINE_MAX
    ensures cs == s && cs + Take(some, LINE_MAX - |cs|) == Take(s + some, LINE_MAX)
  {
  }

  lemma LineRead(unread: string, before: string, some: string, rest: string, p: nat)
    requires Find(CStr(unread) + before, CRLF).None? && |some| <= LOAD_SIZE
    requires Find(Take(CStr(unread) + before + some, LINE_MAX), CRLF) == Some(p)
    ensures Reads(unread, before + some + rest, p, |unread| + |before| + |some|)
  {
    hide CStr, Find, FindFrom, Take;
    NewLine(CStr(unread) + before, some, p);
  }

  lemma NewLine(s: string, some: string, p: nat)
    requires Find(s, CRLF).None? && Find(Take(s + some, LINE_MAX), CRLF) == Some(p)
    ensures |s| < p + 2 <= |s| + |some|
  {
    var cs := Take(s + some, LINE_MAX);
    assert s + some == cs + (s + some)[|cs|..];
    OccursInPrefix(cs, (s + some)[|cs|..], CRLF, p);
    if p + 2 <= |s| { OccursInPrefix(s, some, CRLF, p); }
  }

  /** What the inner loop has collected after reading `read`. */
  ghost predicate Collected(unread: string, incoming: string, read: string, cs: string) {
    && read <= incoming
    && (if read == "" then cs == CStr(unread)
        else |CStr(unread)| < LINE_MAX && Find(CStr(unread), CRLF).None? && cs == Take(CStr(unread) + read, LINE_MAX))
    && (Find(cs, CRLF).Some? ==> Reads(unread, incoming, Find(cs, CRLF).value, |unread| + |read|))
  }

  lemma CollectedFirst(unread: string, incoming: string)
    ensures Collected(unread, incoming, "", CStr(unread))
  {
    hide CStr, Reads;
    if Find(CStr(unread), CRLF).Some? { LineHere(unread, incoming, Find(CStr(unread), CRLF).value); }
  }

  lemma CollectedMore(unread: string, incoming: string, read: string, cs: string, some: string, rest: string)
    requires Collected(unread, incoming, read, cs) && Find(cs, CRLF).None? && |cs| < LINE_MAX
    requires some != "" && |some| <= LOAD_SIZE && incoming == read + some + rest
    ensures Collected(unread, incoming, read + some, cs + Take(some, LINE_MAX - |cs|))
  {
    hide CStr, Reads, Find, FindFrom;
    var c := CStr(unread);
    assert c + "" == c && (read == "" ==> c == Take(c, LINE_MAX) == cs);
    MoreBytes(cs, c + read, some);
    if Find(c, CRLF).Some? { FindInPrefix(c, read, CRLF); }
    assert c + read + some == c + (read + some);
    var next := Take(c + read + some, LINE_MAX);
    if Find(next, CRLF).Some? { LineRead(unread, read, some, rest, Find(next, CRLF).value); }
  }

  /** What was collected shows what the window shows. */
  lemma WindowIs(unread: string, incoming: string, read: string, cs: string)
    requires Collected(unread, incoming, read, cs)
    requires Find(cs, CRLF).Some? || |cs| >= LINE_MAX || read == incoming
    ensures var w := Window(unread, incoming);
            && cs <= w && Find(w, CRLF) == Find(cs, CRLF)
            && (Find(cs, CRLF).None? ==> (|cs| < LINE_MAX <==> |w| < LINE_MAX))
    ensures Find(cs, CRLF).Some? ==>
              var p := Find(cs, CRLF).value;
              p <= |cs| && '\r' in unread + read && Reads(unread, incoming, p, |unread + read|)
  {
    hide CStr, Find, FindFrom, Reads;
    var c, w := CStr(unread), Window(unread, incoming);
    if read == "" && (Find(c, CRLF).Some? || |c| >= LINE_MAX) {
    } else {
      assert incoming == read + incoming[|read|..];
      assert c + incoming == c + read + incoming[|read|..];
      assert w == cs + w[|cs|..];
      if Find(cs, CRLF).Some? { FindInPrefix(cs, w[|cs|..], CRLF); } else { assert w == cs; }
    }
    if Find(cs, CRLF).Some? { LineInside(unread, read, cs, Find(cs, CRLF).value); }
  }

  lemma LineInside(unread: string, read: string, cs: string, p: nat)
    requires Find(cs, CRLF) == Some(p) && (cs == CStr(unread) || cs == Take(CStr(unread) + read, LINE_MAX))
    ensures p <= |cs| && '\r' in unread + read
  {
    hide CStr, Find, FindFrom;
    OccursHead(cs, CRLF, p);
    var c := CStr(unread);
    if p < |c| { assert unread[p] == c[p] == '\r'; } else { assert read[p - |c|] == (c + read)[p] == '\r'; }
  }

  /** The front of the loop in transfer_chunk: collects up to 18 bytes until they show a line
      end, from what get_some shows and from the socket. `stalled` marks the inner loop reading
      at the end of the stream for ever. */
  method ReadSizeLine(from: Memory) returns (cs: string, p: Option<nat>, stalled: bool)
    requires from.Valid() && from.State().Reachable()
    modifies from`blocks, from`writeIndex, from`readOk, from`incoming
    ensures from.Valid() && from.Stream() == old(from.Stream()) && |from.incoming| <= |old(from.incoming)|
    ensures from.writeIndex + |from.incoming| == old(from.writeIndex + |from.incoming|)
    // the line found, and the loop for ever, do not depend on the fragmentation
    ensures var w := Window(BlockBuffer.GetSome(old(from.State())), old(from.incoming));
            && p == Find(w, CRLF) && (p.Some? ==> p.value <= |cs| && cs <= w)
            && (stalled <==> p.None? && |w| < LINE_MAX)
    ensures p.Some? ==>
              var v := BlockBuffer.GetSome(old(from.State()));
              && '\r' in from.Unread() && v <= old(from.Unread())
              && Reads(v, old(from.incoming), p.value, |v| + |old(from.incoming)| - |from.incoming|)
  {
    hide Buffer.Valid, Buffer.Unread, Load, Find, FindFrom, CStr, Reads, Window, Collected, BlockBuffer.GetSome, Take, OccursAt;
    ghost var unread, incoming, read := from.Unread(), from.incoming, "";
    stalled := false;
    var some := from.GetSome();
    ghost var v := some;
    cs := CStr(some);
    p := Find(cs, CRLF);
    CollectedFirst(v, incoming);
    assert from.Unread() == unread + read;
    while p.None? && |cs| < LINE_MAX
      invariant from.Valid() && from.Unread() == unread + read && incoming == read + from.incoming
      invariant from.Stream() == old(from.Stream())
      invariant from.writeIndex + |from.incoming| == old(from.writeIndex + |from.incoming|)
      invariant p == Find(cs, CRLF) && Collected(v, incoming, read, cs)
      decreases |from.incoming|
    {
      some := from.AsyncLoadSome(LOAD_SIZE);
      if some == "" {
        stalled := true;
        WindowIs(v, incoming, read, cs);
        return;
      }
      CollectedMore(v, incoming, read, cs, some, from.incoming);
      read := read + some;
      cs := cs + Take(some, LINE_MAX - |cs|);
      p := Find(cs, CRLF);
    }
    WindowIs(v, incoming, read, cs);
  }

  /** The inner loop reads for ever exactly when all that can come shows no line end in fewer
      than 18 bytes. */
  lemma StallsExactly(unread: string, incoming: string)
    ensures var w := Window(unread, incoming);
            Find(w, CRLF).None? && |w| < 18
            <==> |CStr(unread) + incoming| < 18 && Find(CStr(unread) + incoming, CRLF).None?
  {
    hide CStr, Find, FindFrom;
    var c := CStr(unread);
    if Find(c, CRLF).Some? { FindInPrefix(c, incoming, CRLF); }
  }

  /** The buffered bytes behind a NUL are not looked at: a size line is looked for in what is
      before it and in what comes from the socket. */
  lemma NulHides(before: string, behind: string, incoming: string)
    requires '\0' !in before && |before| < 18 && Find(before, "\r\n").None?
    ensures Window(before + "\0" + behind, incoming) == Take(before + incoming, 18)
    ensures Window(before, incoming) == Take(before + incoming, 18)
  {
    CStrIs(before, "\0" + behind);
    CStrIs(before, "");
    assert before + "\0" + behind == before + ("\0" + behind) && before + "" == before;
  }

  lemma {:induction false} CStrIs(s: string, rest: string)
    requires '\0' !in s && (rest == "" || rest[0] == '\0')
    ensures CStr(s + rest) == s
  {
    if s == "" {
      assert s + rest == rest;
    } else {
      assert (s + rest)[1..] == s[1..] + rest;
      CStrIs(s[1..], rest);
    }
  }

  // ---------- every way transfer_chunk can end ----------

  /** How transfer_chunk ends; `n` is the number of bytes it has written by then.
      Relayed: it returns n. Failed: it throws. Unending: it loops for ever, see Outcome. */
  datatype ChunkOutcome = Relayed(n: nat) | Failed(n: nat) | Unending(n: nat)

  function Plus(r: ChunkOutcome, n: nat): ChunkOutcome { r.(n := r.n + n) }

  /** How its loop ends, or gets to a size line past 2 GiB (Crossed). Last: at a size line that
      reads as zero. `seen` bytes are unread then. */
  datatype LoopEnd = Last(n: nat, seen: nat) | FailedAt(n: nat) | StalledAt(n: nat) | Crossed(n: nat, seen: nat)

  /** From these unread and incoming bytes, at read position `at`, the loop ends like this
      under some fragmentation. */
  ghost predicate CanLoop(unread: string, incoming: string, at: nat, e: LoopEnd)
    decreases |unread + incoming|, |incoming|, 1
  {
    if at >= INT_LIMIT then e == Crossed(0, |unread|)
    else
      var w := Window(unread, incoming);
      match Find(w, CRLF)
      case None => e == if |w| < LINE_MAX then StalledAt(0) else FailedAt(0)
      case Some(p) =>
        match HexStrTo(w[..p])
        case None => e == FailedAt(0)
        case Some(size) => exists k: nat :: Reads(unread, incoming, p, k) && CanGoOn(unread, incoming, at, p, size, k, e)
  }

  /** The same, when `k` bytes are in the buffer once the size is read. */
  ghost predicate CanGoOn(unread: string, incoming: string, at: nat, p: nat, size: nat, k: nat, e: LoopEnd)
    requires |unread| <= k <= |unread + incoming|
    decreases |unread + incoming|, |incoming|, 0
  {
    var all, total := unread + incoming, Wrap(p + 2 + size + 2);
    if size == 0 then e == Last(0, k)
    else if total == 0 then
      if k == |unread| then e == StalledAt(0) else CanLoop(all[..k], all[k..], at, e)
    else if total > |all| then e == StalledAt(|all|)
    else e.n >= total && CanLoop(Left(all, k, total), Coming(all, k, total), at + total, Less(e, total))
  }

  /** What is unread, and what is still to come, after `total` bytes went with `k` buffered. */
  function Left(all: string, k: nat, total: nat): string
    requires k <= |all|
  {
    if total <= k then all[total..k] else ""
  }

  function Coming(all: string, k: nat, total: nat): string
    requires k <= |all| && total <= |all|
  {
    if total <= k then all[k..] else all[total..]
  }

  function Later(e: LoopEnd, n: nat): LoopEnd { e.(n := e.n + n) }

  function Less(e: LoopEnd, n: nat): LoopEnd
    requires n <= e.n
  {
    e.(n := e.n - n)
  }

  // Past 2 GiB get_some no longer shows what is unread.

  /** What get_some can show at read position `at`: below 2 GiB everything, from there to
      4 GiB nothing. (What it shows beyond depends on the blocks, see VisibleExact.) */
  ghost predicate Shows(unread: string, at: nat, v: string) {
    v <= unread && (at < INT_LIMIT ==> v == unread) && (INT_LIMIT <= at < INT_RANGE ==> v == "")
  }

  /** The same after a merge. */
  ghost predicate ShowsMerged(unread: string, at: nat, v: string) {
    Shows(unread, at, v) && (v == unread || v == "")
  }

  /** From a size line past 2 GiB on: how transfer_chunk ends, and what it writes. */
  ghost predicate CanSkip(unread: string, incoming: string, at: nat, r: ChunkOutcome, text: string)
    decreases |unread + incoming|, |incoming|, 3
  {
    exists v :: Shows(unread, at, v) && CanSkipLine(unread, v, incoming, at, r, text)
  }

  /** With `v` of the unread bytes shown. */
  ghost predicate CanSkipLine(unread: string, v: string, incoming: string, at: nat, r: ChunkOutcome, text: string)
    decreases |unread + incoming|, |incoming|, 2
  {
    var w := Window(v, incoming);
    match Find(w, CRLF)
    case None => text == "" && r == if |w| < LINE_MAX then Unending(0) else Failed(0)
    case Some(p) =>
      match HexStrTo(w[..p])
      case None => text == "" && r == Failed(0)
      case Some(size) => exists k: nat :: k <= |incoming| && Reads(v, incoming, p, |v| + k)
                                          && CanSkipOn(unread, incoming, at, p, size, k, r, text)
  }

  /** With `k` more bytes read. */
  ghost predicate CanSkipOn(unread: string, incoming: string, at: nat, p: nat, size: nat, k: nat, r: ChunkOutcome, text: string)
    requires k <= |incoming|
    decreases |unread + incoming|, |incoming|, 1
  {
    var u, i, total := unread + incoming[..k], incoming[k..], Wrap(p + 2 + size + 2);
    if size != 0 && total == 0 then
      if k == 0 then r == Unending(0) && text == "" else CanSkip(u, i, at, r, text)
    else exists v :: ShowsMerged(u, at, v) && CanSkipShown(u, i, v, at, if size == 0 then 0 else total, r, text)
  }

  /** With `v` of the unread bytes shown again: transfer_mem, or for 0 bytes the end. */
  ghost predicate CanSkipShown(unread: string, incoming: string, v: string, at: nat, total: nat, r: ChunkOutcome, text: string)
    requires v <= unread
    decreases |unread + incoming|, |incoming|, 0
  {
    if total == 0 then CanSkipLast(v, incoming, r, text)
    else if total > |v + incoming| then r == Unending(|v + incoming|) && text == v + incoming
    else
      && r.n >= total && |text| >= total && text[..total] == (v + incoming)[..total]
      && CanSkip(Kept(unread, incoming, v, total), incoming[Beyond(total, |v|)..], at + total,
                 r.(n := r.n - total), text[total..])
  }

  /** What stays unread when `total` bytes go of which `v` were shown. */
  function Kept(unread: string, incoming: string, v: string, total: nat): string
    requires v <= unread && total <= |v + incoming|
  {
    (unread + incoming[..Beyond(total, |v|)])[total..]
  }

  /** transfer_mem_until. */
  ghost predicate CanSkipLast(v: string, incoming: string, r: ChunkOutcome, text: string) {
    && r.n <= |v + incoming| && text == (v + incoming)[..r.n]
    && (|| (r.Relayed? && CanEndUntil(END, v, incoming, Done(r.n)))
        || (r.Unending? && CanEndUntil(END, v, incoming, Outcome.Stalled(r.n))))
  }

  /** What the end of the loop makes of the whole. */
  ghost predicate EndsAs(all: string, at: nat, e: LoopEnd, r: ChunkOutcome, text: string) {
    match e
    case Last(n, seen) =>
      && n + seen <= |all| && n <= r.n <= |all| && text == all[..r.n]
      && (|| (r.Relayed? && CanEndUntil(END, all[n..n + seen], all[n + seen..], Done(r.n - n)))
          || (r.Unending? && CanEndUntil(END, all[n..n + seen], all[n + seen..], Outcome.Stalled(r.n - n))))
    case FailedAt(n) => n <= |all| && r == Failed(n) && text == all[..n]
    case StalledAt(n) => n <= |all| && r == Unending(n) && text == all[..n]
    case Crossed(n, seen) =>
      && n + seen <= |all| && n <= r.n && n <= |text| && text[..n] == all[..n]
      && CanSkip(all[n..n + seen], all[n + seen..], at + n, r.(n := r.n - n), text[n..])
  }

  ghost predicate CanRelay(unread: string, incoming: string, at: nat, r: ChunkOutcome, text: string) {
    exists e :: CanLoop(unread, incoming, at, e) && EndsAs(unread + incoming, at, e, r, text)
  }

  // ---------- one pass of the loop ----------

  /** Past 2 GiB there is no other loop. */
  lemma RelayPast(unread: string, incoming: string, at: nat, r: ChunkOutcome, text: string)
    requires at >= INT_LIMIT
    ensures CanRelay(unread, incoming, at, r, text) <==> CanSkip(unread, incoming, at, r, text)
  {
    hide CanSkip;
    var all := unread + incoming;
    assert all[0..0 + |unread|] == unread && all[0 + |unread|..] == incoming && text[0..] == text;
    assert CanLoop(unread, incoming, at, Crossed(0, |unread|));
    assert EndsAs(all, at, Crossed(0, |unread|), r, text) <==> CanSkip(unread, incoming, at, r, text);
  }

  /** The size line cannot be read. */
  lemma LineEnds(unread: string, incoming: string, at: nat, v: string)
    requires Shows(unread, at, v)
    ensures var w := Window(v, incoming);
            && (Find(w, CRLF).None? ==> CanRelay(unread, incoming, at, if |w| < LINE_MAX then Unending(0) else Failed(0), ""))
            && (Find(w, CRLF).Some? && HexStrTo(w[..Find(w, CRLF).value]) == None ==>
                  CanRelay(unread, incoming, at, Failed(0), ""))
  {
    hide Window, Find, FindFrom, HexStrTo, Reads, CanGoOn, CanSkipOn;
    var w := Window(v, incoming);
    if Find(w, CRLF).None? || HexStrTo(w[..Find(w, CRLF).value]) == None {
      var stalls := Find(w, CRLF).None? && |w| < LINE_MAX;
      if at < INT_LIMIT {
        EndsNow(unread, incoming, at, if stalls then StalledAt(0) else FailedAt(0), if stalls then Unending(0) else Failed(0));
      } else {
        assert CanSkipLine(unread, v, incoming, at, if stalls then Unending(0) else Failed(0), "");
        RelayPast(unread, incoming, at, if stalls then Unending(0) else Failed(0), "");
      }
    }
  }

  lemma EndsNow(unread: string, incoming: string, at: nat, e: LoopEnd, r: ChunkOutcome)
    requires CanLoop(unread, incoming, at, e) && ((e == StalledAt(0) && r == Unending(0)) || (e == FailedAt(0) && r == Failed(0)))
    ensures CanRelay(unread, incoming, at, r, "")
  {
    hide CanLoop;
    assert EndsAs(unread + incoming, at, e, r, "");
  }

  /** A size line that shows `size`, after `k` more bytes were read. */
  ghost predicate Line(unread: string, incoming: string, at: nat, v: string, p: nat, size: nat, k: nat): (read: bool)
    ensures read ==> k <= |incoming|
  {
    && Shows(unread, at, v) && k <= |incoming| && Reads(v, incoming, p, |v| + k)
    && var w := Window(v, incoming); Find(w, CRLF) == Some(p) && HexStrTo(w[..p]) == Some(size)
  }

  lemma LinePast(unread: string, incoming: string, at: nat, v: string, p: nat, size: nat, k: nat, r: ChunkOutcome, text: string)
    requires Line(unread, incoming, at, v, p, size, k) && at >= INT_LIMIT
    requires CanSkipOn(unread, incoming, at, p, size, k, r, text)
    ensures CanRelay(unread, incoming, at, r, text)
  {
    hide Window, Find, FindFrom, HexStrTo, Reads, CanSkipOn;
    assert CanSkipLine(unread, v, incoming, at, r, text);
    RelayPast(unread, incoming, at, r, text);
  }

  /** Below 2 GiB, with the end of the loop known. */
  lemma LineLoop(unread: string, incoming: string, at: nat, v: string, p: nat, size: nat, k: nat, e: LoopEnd, r: ChunkOutcome, text: string)
    requires Line(unread, incoming, at, v, p, size, k) && at < INT_LIMIT
    requires CanGoOn(unread, incoming, at, p, size, |unread| + k, e) && EndsAs(unread + incoming, at, e, r, text)
    ensures CanRelay(unread, incoming, at, r, text)
  {
    hide Window, Find, FindFrom, HexStrTo, Reads, CanGoOn, EndsAs;
    LoopPass(unread, incoming, at, p, size, |unread| + k, e);
  }

  lemma LoopPass(unread: string, incoming: string, at: nat, p: nat, size: nat, k: nat, e: LoopEnd)
    requires at < INT_LIMIT && |unread| <= k <= |unread + incoming| && Reads(unread, incoming, p, k)
    requires var w := Window(unread, incoming); Find(w, CRLF) == Some(p) && HexStrTo(w[..p]) == Some(size)
    requires CanGoOn(unread, incoming, at, p, size, k, e)
    ensures CanLoop(unread, incoming, at, e)
  {
    hide Window, Find, FindFrom, HexStrTo, Reads, CanGoOn;
  }

  lemma Buffered(unread: string, incoming: string, k: nat)
    requires k <= |incoming|
    ensures var all := unread + incoming;
            && unread + incoming[..k] == all[..|unread| + k] && incoming[k..] == all[|unread| + k..]
            && (unread + incoming[..k]) + incoming[k..] == all
  {
  }

  /** The last size line, and then transfer_mem_until. */
  lemma LastEnds(unread: string, incoming: string, at: nat, v: string, p: nat, k: nat, shown: string, t: Outcome)
    requires Line(unread, incoming, at, v, p, 0, k) && ShowsMerged(unread + incoming[..k], at, shown)
    requires CanEndUntil(END, shown, incoming[k..], t) && t.n <= |shown + incoming[k..]|
    ensures CanRelay(unread, incoming, at, Of(t), (shown + incoming[k..])[..t.n])
  {
    hide Window, Find, FindFrom, HexStrTo, Reads, Line, CanEndUntil;
    Buffered(unread, incoming, k);
    var text := (shown + incoming[k..])[..t.n];
    if at < INT_LIMIT {
      var e := Last(0, |unread| + k);
      assert CanGoOn(unread, incoming, at, p, 0, |unread| + k, e);
      assert EndsAs(unread + incoming, at, e, Of(t), text);
      LineLoop(unread, incoming, at, v, p, 0, k, e, Of(t), text);
    } else {
      assert CanSkipLast(shown, incoming[k..], Of(t), text);
      assert CanSkipOn(unread, incoming, at, p, 0, k, Of(t), text);
      LinePast(unread, incoming, at, v, p, 0, k, Of(t), text);
    }
  }

  function Of(t: Outcome): ChunkOutcome {
    match t
    case Done(n) => Relayed(n)
    case Stalled(n) => Unending(n)
  }

  /** A size so large that the count of bytes wraps to 0: nothing happens, or only the read. */
  lemma NothingGoes(unread: string, incoming: string, at: nat, v: string, p: nat, size: nat, k: nat)
    requires Line(unread, incoming, at, v, p, size, k) && size != 0 && Wrap(p + 2 + size + 2) == 0
    ensures k == 0 ==> CanRelay(unread, incoming, at, Unending(0), "")
    ensures k > 0 ==> Follows(unread, incoming, at, 0, "", unread + incoming[..k], incoming[k..], at)
    ensures at < INT_LIMIT ==> LoopFollows(unread, incoming, at, 0, unread + incoming[..k], incoming[k..], at)
  {
    hide Window, Find, FindFrom, HexStrTo, Reads, Line, CanLoop, CanSkip, EndsAs, Wrap;
    Buffered(unread, incoming, k);
    if at < INT_LIMIT { LoopSame(unread, incoming, at, v, p, size, k); }
    if k == 0 {
      if at < INT_LIMIT {
        StallsNow(unread + incoming, at);
        LineLoop(unread, incoming, at, v, p, size, k, StalledAt(0), Unending(0), "");
      } else {
        LinePast(unread, incoming, at, v, p, size, k, Unending(0), "");
      }
    } else {
      var u, i := unread + incoming[..k], incoming[k..];
      forall r, t | CanRelay(u, i, at, r, t) ensures CanRelay(unread, incoming, at, Plus(r, 0), "" + t) {
        assert Plus(r, 0) == r && "" + t == t;
        if at < INT_LIMIT {
          var e :| CanLoop(u, i, at, e) && EndsAs(u + i, at, e, r, t);
          LineLoop(unread, incoming, at, v, p, size, k, e, r, t);
        } else {
          RelayPast(u, i, at, r, t);
          LinePast(unread, incoming, at, v, p, size, k, r, t);
        }
      }
    }
  }

  lemma LoopSame(unread: string, incoming: string, at: nat, v: string, p: nat, size: nat, k: nat)
    requires Line(unread, incoming, at, v, p, size, k) && size != 0 && Wrap(p + 2 + size + 2) == 0 && at < INT_LIMIT
    ensures LoopFollows(unread, incoming, at, 0, unread + incoming[..k], incoming[k..], at)
  {
    hide Wrap, CanLoop, Window, Find, FindFrom, HexStrTo, Reads;
    Buffered(unread, incoming, k);
    forall e | CanLoop(unread + incoming[..k], incoming[k..], at, e) ensures CanLoop(unread, incoming, at, Later(e, 0)) {
      assert Later(e, 0) == e;
      if k > 0 {
        assert CanGoOn(unread, incoming, at, p, size, |unread| + k, e);
        LoopPass(unread, incoming, at, p, size, |unread| + k, e);
      } else {
        assert unread + incoming[..0] == unread && incoming[0..] == incoming;
      }
    }
  }

  lemma StallsNow(all: string, at: nat)
    ensures EndsAs(all, at, StalledAt(0), Unending(0), "")
  {
  }

  /** What can happen from the second state can happen from the first, `n` bytes and `text`
      later. */
  ghost predicate Follows(unread0: string, incoming0: string, at0: nat, n: nat, text: string, unread: string, incoming: string, at: nat) {
    forall r, t :: CanRelay(unread, incoming, at, r, t) ==> CanRelay(unread0, incoming0, at0, Plus(r, n), text + t)
  }

  /** transfer_mem: too few bytes, or the next size line. */
  lemma BytesGo(unread: string, incoming: string, at: nat, v: string, p: nat, size: nat, k: nat, shown: string)
    requires Line(unread, incoming, at, v, p, size, k) && size != 0 && Wrap(p + 2 + size + 2) != 0
    requires ShowsMerged(unread + incoming[..k], at, shown)
    ensures var u, i, total := unread + incoming[..k], incoming[k..], Wrap(p + 2 + size + 2);
            if total > |shown + i| then CanRelay(unread, incoming, at, Unending(|shown + i|), shown + i)
            else
              && Follows(unread, incoming, at, total, (shown + i)[..total],
                         Kept(u, i, shown, total), i[Beyond(total, |shown|)..], at + total)
              && (at < INT_LIMIT ==>
                    LoopFollows(unread, incoming, at, total, Kept(u, i, shown, total), i[Beyond(total, |shown|)..], at + total))
  {
    hide Line, Wrap, CanRelay, Beyond, Kept;
    var u, i, total := unread + incoming[..k], incoming[k..], Wrap(p + 2 + size + 2);
    if total > |shown + i| {
      TooFew(unread, incoming, at, v, p, size, k, shown);
    } else {
      forall r, t | CanRelay(Kept(u, i, shown, total), i[Beyond(total, |shown|)..], at + total, r, t)
        ensures CanRelay(unread, incoming, at, Plus(r, total), (shown + i)[..total] + t)
      {
        if at < INT_LIMIT {
          GoBelow(unread, incoming, at, v, p, size, k, shown, r, t);
        } else {
          GoPast(unread, incoming, at, v, p, size, k, shown, r, t);
        }
      }
      if at < INT_LIMIT { LoopGoes(unread, incoming, at, v, p, size, k, shown); }
    }
  }

  lemma LoopGoes(unread: string, incoming: string, at: nat, v: string, p: nat, size: nat, k: nat, shown: string)
    requires Line(unread, incoming, at, v, p, size, k) && size != 0 && at < INT_LIMIT
    requires ShowsMerged(unread + incoming[..k], at, shown) && 0 < Wrap(p + 2 + size + 2) <= |shown + incoming[k..]|
    ensures var u, i, total := unread + incoming[..k], incoming[k..], Wrap(p + 2 + size + 2);
            LoopFollows(unread, incoming, at, total, Kept(u, i, shown, total), i[Beyond(total, |shown|)..], at + total)
  {
    hide Wrap, CanLoop, Kept, Beyond, Left, Coming, Window, Find, FindFrom, HexStrTo, Reads;
    var u, i, total := unread + incoming[..k], incoming[k..], Wrap(p + 2 + size + 2);
    Buffered(unread, incoming, k);
    KeptIsLeft(u, i, total);
    forall e | CanLoop(Kept(u, i, u, total), i[Beyond(total, |u|)..], at + total, e)
      ensures CanLoop(unread, incoming, at, Later(e, total))
    {
      var later := Later(e, total);
      assert Less(later, total) == e;
      assert CanGoOn(unread, incoming, at, p, size, |unread| + k, later);
      LoopPass(unread, incoming, at, p, size, |unread| + k, later);
    }
  }

  lemma TooFew(unread: string, incoming: string, at: nat, v: string, p: nat, size: nat, k: nat, shown: string)
    requires Line(unread, incoming, at, v, p, size, k) && size != 0
    requires ShowsMerged(unread + incoming[..k], at, shown) && Wrap(p + 2 + size + 2) > |shown + incoming[k..]|
    ensures CanRelay(unread, incoming, at, Unending(|shown + incoming[k..]|), shown + incoming[k..])
  {
    hide Line, Wrap, CanLoop, CanSkip, Beyond;
    Buffered(unread, incoming, k);
    var text := shown + incoming[k..];
    if at < INT_LIMIT {
      assert text[..|text|] == text;
      assert EndsAs(unread + incoming, at, StalledAt(|text|), Unending(|text|), text);
      LineLoop(unread, incoming, at, v, p, size, k, StalledAt(|text|), Unending(|text|), text);
    } else {
      assert CanSkipOn(unread, incoming, at, p, size, k, Unending(|text|), text);
      LinePast(unread, incoming, at, v, p, size, k, Unending(|text|), text);
    }
  }

  lemma GoPast(unread: string, incoming: string, at: nat, v: string, p: nat, size: nat, k: nat, shown: string, r: ChunkOutcome, t: string)
    requires Line(unread, incoming, at, v, p, size, k) && size != 0 && at >= INT_LIMIT
    requires ShowsMerged(unread + incoming[..k], at, shown) && 0 < Wrap(p + 2 + size + 2) <= |shown + incoming[k..]|
    requires var u, i, total := unread + incoming[..k], incoming[k..], Wrap(p + 2 + size + 2);
             CanRelay(Kept(u, i, shown, total), i[Beyond(total, |shown|)..], at + total, r, t)
    ensures var i, total := incoming[k..], Wrap(p + 2 + size + 2);
            CanRelay(unread, incoming, at, Plus(r, total), (shown + i)[..total] + t)
  {
    hide Line, Wrap, CanSkip, CanLoop, Kept, Beyond, CanRelay;
    var u, i, total := unread + incoming[..k], incoming[k..], Wrap(p + 2 + size + 2);
    var text := (shown + i)[..total] + t;
    assert text[..total] == (shown + i)[..total] && text[total..] == t;
    RelayPast(Kept(u, i, shown, total), i[Beyond(total, |shown|)..], at + total, r, t);
    assert Plus(r, total).(n := Plus(r, total).n - total) == r;
    assert CanSkipOn(unread, incoming, at, p, size, k, Plus(r, total), text);
    LinePast(unread, incoming, at, v, p, size, k, Plus(r, total), text);
  }

  lemma GoBelow(unread: string, incoming: string, at: nat, v: string, p: nat, size: nat, k: nat, shown: string, r: ChunkOutcome, t: string)
    requires Line(unread, incoming, at, v, p, size, k) && size != 0 && at < INT_LIMIT
    requires ShowsMerged(unread + incoming[..k], at, shown) && 0 < Wrap(p + 2 + size + 2) <= |shown + incoming[k..]|
    requires var u, i, total := unread + incoming[..k], incoming[k..], Wrap(p + 2 + size + 2);
             CanRelay(Kept(u, i, shown, total), i[Beyond(total, |shown|)..], at + total, r, t)
    ensures var i, total := incoming[k..], Wrap(p + 2 + size + 2);
            CanRelay(unread, incoming, at, Plus(r, total), (shown + i)[..total] + t)
  {
    hide Line, Wrap, CanLoop, Kept, Beyond, EndsAs, Left, Coming;
    var u, i, total := unread + incoming[..k], incoming[k..], Wrap(p + 2 + size + 2);
    var all := unread + incoming;
    Buffered(unread, incoming, k);
    KeptIsLeft(u, i, total);
    var e :| CanLoop(Kept(u, i, u, total), i[Beyond(total, |u|)..], at + total, e)
             && EndsAs(Kept(u, i, u, total) + i[Beyond(total, |u|)..], at + total, e, r, t);
    LeftThenComing(all, |u|, total);
    EndsLater(all, total, at, e, r, t);
    LoopGoes(unread, incoming, at, v, p, size, k, shown);
    assert EndsAs(all, at, Later(e, total), Plus(r, total), all[..total] + t);
  }

  lemma KeptIsLeft(u: string, i: string, total: nat)
    requires total <= |u + i|
    ensures Kept(u, i, u, total) == Left(u + i, |u|, total) && i[Beyond(total, |u|)..] == Coming(u + i, |u|, total)
  {
    if total <= |u| {
      assert u + i[..0] == u && (u + i)[total..|u|] == u[total..];
    } else {
      assert u + i[..total - |u|] == (u + i)[..total];
    }
  }

  lemma EndsLater(all: string, total: nat, at: nat, e: LoopEnd, r: ChunkOutcome, t: string)
    requires total <= |all| && EndsAs(all[total..], at + total, e, r, t)
    ensures EndsAs(all, at, Later(e, total), Plus(r, total), all[..total] + t)
  {
    hide CanEndUntil, CanSkip;
    if e.Crossed? {
      CrossedLater(all, total, at, e.n, e.seen, r, t);
    } else if e.Last? {
      SameSlices(all, total, e.n, e.seen);
      SameFront(all, total, r.n);
    } else {
      SameFront(all, total, e.n);
    }
  }

  lemma SameFront(all: string, total: nat, n: nat)
    requires total + n <= |all|
    ensures all[..total] + all[total..][..n] == all[..total + n]
  {
  }

  lemma CrossedLater(all: string, total: nat, at: nat, n: nat, seen: nat, r: ChunkOutcome, t: string)
    requires total <= |all| && EndsAs(all[total..], at + total, Crossed(n, seen), r, t)
    ensures EndsAs(all, at, Crossed(n + total, seen), Plus(r, total), all[..total] + t)
  {
    hide CanSkip;
    var text := all[..total] + t;
    SameSlices(all, total, n, seen);
    SameFront(all, total, n);
    assert text[n + total..] == t[n..] && text[..n + total] == all[..total] + t[..n];
    assert Plus(r, total).(n := Plus(r, total).n - (n + total)) == r.(n := r.n - n);
  }

  lemma SameSlices(all: string, total: nat, n: nat, seen: nat)
    requires total <= |all| && n + seen <= |all[total..]|
    ensures var rest := all[total..];
            rest[n..n + seen] == all[total + n..total + n + seen] && rest[n + seen..] == all[total + n + seen..]
            && all[..total] + rest[..n] == all[..total + n]
  {
  }

  // ---------- transfer_chunk ----------

  /** `n` bytes further: what was written (`text`), what is left of the stream, and that all
      that can happen from here can happen from the start. */
  ghost predicate Progress(unread0: string, incoming0: string, at0: nat, n: nat, text: string, unread: string, incoming: string, at: nat) {
    var all := unread0 + incoming0;
    && n == |text| <= |all| && unread + incoming == all[n..] && at == at0 + n
    && Follows(unread0, incoming0, at0, n, text, unread, incoming, at)
    && LoopsSo(unread0, incoming0, at0, n, unread, incoming, at)
    && (at0 + |all| <= INT_LIMIT ==> text == all[..n])
  }

  /** The same for the loop: below 2 GiB its ends carry over, past it that was crossed. */
  ghost predicate LoopsSo(unread0: string, incoming0: string, at0: nat, n: nat, unread: string, incoming: string, at: nat) {
    if at < INT_LIMIT then LoopFollows(unread0, incoming0, at0, n, unread, incoming, at)
    else exists e: LoopEnd :: e.Crossed? && CanLoop(unread0, incoming0, at0, e)
  }

  ghost predicate LoopFollows(unread0: string, incoming0: string, at0: nat, n: nat, unread: string, incoming: string, at: nat) {
    forall e :: CanLoop(unread, incoming, at, e) ==> CanLoop(unread0, incoming0, at0, Later(e, n))
  }

  lemma LoopsSoOn(unread0: string, incoming0: string, at0: nat, n: nat, unread: string, incoming: string, at: nat,
                  m: nat, u: string, i: string)
    requires LoopsSo(unread0, incoming0, at0, n, unread, incoming, at)
    requires at < INT_LIMIT ==> LoopFollows(unread, incoming, at, m, u, i, at + m)
    ensures LoopsSo(unread0, incoming0, at0, n + m, u, i, at + m)
  {
    hide CanLoop;
    if at < INT_LIMIT {
      var next := at + m;
      forall e | CanLoop(u, i, next, e) ensures CanLoop(unread0, incoming0, at0, Later(e, n + m)) {
        var later := Later(e, m);
        assert Later(later, n) == Later(e, n + m);
      }
      if at + m >= INT_LIMIT {
        CrossedNow(u, i, at + m);
        assert CanLoop(unread0, incoming0, at0, Later(Crossed(0, |u|), n + m));
      }
    }
  }

  lemma CrossedNow(unread: string, incoming: string, at: nat)
    requires at >= INT_LIMIT
    ensures CanLoop(unread, incoming, at, Crossed(0, |unread|))
  {
  }

  lemma ProgressStart(unread: string, incoming: string, at: nat)
    ensures Progress(unread, incoming, at, 0, "", unread, incoming, at)
  {
    hide CanRelay, CanLoop;
    forall r, t | CanRelay(unread, incoming, at, r, t) ensures CanRelay(unread, incoming, at, Plus(r, 0), "" + t) {
      assert Plus(r, 0) == r && "" + t == t;
    }
    forall e: LoopEnd ensures Later(e, 0) == e {
    }
    if at >= INT_LIMIT { CrossedNow(unread, incoming, at); }
  }

  lemma ProgressEnds(unread0: string, incoming0: string, at0: nat, n: nat, text: string, unread: string, incoming: string, at: nat,
                     r: ChunkOutcome, t: string)
    requires Progress(unread0, incoming0, at0, n, text, unread, incoming, at)
    requires CanRelay(unread, incoming, at, r, t)
    ensures CanRelay(unread0, incoming0, at0, Plus(r, n), text + t)
    ensures var all := unread0 + incoming0;
            at0 + |all| <= INT_LIMIT && t <= unread + incoming ==> text + t == all[..n + |t|]
  {
    hide CanRelay;
    var all := unread0 + incoming0;
    if at0 + |all| <= INT_LIMIT && t <= unread + incoming { assert all[..n] + t == all[..n + |t|]; }
  }

  lemma ProgressOn(unread0: string, incoming0: string, at0: nat, n: nat, text: string, unread: string, incoming: string, at: nat,
                   m: nat, t: string, u: string, i: string)
    requires Progress(unread0, incoming0, at0, n, text, unread, incoming, at)
    requires Follows(unread, incoming, at, m, t, u, i, at + m)
    requires at < INT_LIMIT ==> LoopFollows(unread, incoming, at, m, u, i, at + m)
    requires m == |t| <= |unread + incoming| && u + i == (unread + incoming)[m..]
    requires at < INT_LIMIT || unread + incoming == "" ==> t <= unread + incoming
    ensures Progress(unread0, incoming0, at0, n + m, text + t, u, i, at + m)
  {
    hide CanRelay, LoopsSo, LoopFollows;
    var all := unread0 + incoming0;
    LoopsSoOn(unread0, incoming0, at0, n, unread, incoming, at, m, u, i);
    var next := at + m;
    forall r, s | CanRelay(u, i, next, r, s) ensures CanRelay(unread0, incoming0, at0, Plus(r, n + m), text + t + s) {
      assert CanRelay(unread, incoming, at, Plus(r, m), t + s);
      assert Plus(Plus(r, m), n) == Plus(r, n + m) && text + (t + s) == text + t + s;
    }
    assert all[n..][m..] == all[n + m..];
    if at0 + |all| <= INT_LIMIT { assert all[..n] + t == all[..n + m]; }
  }

  lemma ShownIs(buf: Buffer)
    requires buf.Valid() && buf.Reachable()
    ensures buf.readIndex >= INT_LIMIT || |buf.blocks| <= 1 ==> Shows(buf.Unread(), buf.readIndex, BlockBuffer.GetSome(buf))
    ensures ShowsMerged(buf.Unread(), buf.readIndex, Visible(buf))
  {
    hide Visible, Hits, Buffer.Unread, Buffer.Valid, FindBlock;
    VisibleExact(buf);
    GetSomeIsPrefix(buf);
    if INT_LIMIT <= buf.readIndex < INT_RANGE { NoneShown(buf); }
  }

  lemma NoneShown(buf: Buffer)
    requires buf.Valid() && buf.Reachable() && INT_LIMIT <= buf.readIndex < INT_RANGE
    ensures BlockBuffer.GetSome(buf) == ""
  {
    LookupExact(buf);
  }

  lemma LineIs(unread: string, incoming: string, at: nat, v: string, p: nat, size: nat, cs: string, u: string, i: string)
    requires Shows(unread, at, v) && u + i == unread + incoming && |i| <= |incoming|
    requires var w := Window(v, incoming); Find(w, CRLF) == Some(p) && p <= |cs| && cs <= w && HexStrTo(cs[..p]) == Some(size)
    requires Reads(v, incoming, p, |v| + |incoming| - |i|)
    ensures var k := |incoming| - |i|;
            u == unread + incoming[..k] && i == incoming[k..] && Line(unread, incoming, at, v, p, size, k)
  {
    hide Window, Find, FindFrom, HexStrTo, Reads;
    var k := |incoming| - |i|;
    Buffered(unread, incoming, k);
    assert i == (u + i)[|u|..] == incoming[k..] && u == (u + i)[..|u|];
    SamePrefix(cs, Window(v, incoming), p);
  }

  lemma KeptIs(unread: string, incoming: string, v: string, total: nat, u: string, i: string)
    requires v <= unread && total <= |v + incoming| && u + i == (unread + incoming)[total..]
    requires i == incoming[Beyond(total, |v|)..]
    ensures u == Kept(unread, incoming, v, total)
  {
    var b := Beyond(total, |v|);
    assert unread + incoming == unread + incoming[..b] + incoming[b..];
    assert (unread + incoming)[total..] == (unread + incoming[..b])[total..] + i;
    assert u == (u + i)[..|u|];
  }

  lemma ShownGoes(unread: string, incoming: string, at: nat, k: nat, shown: string)
    requires k <= |incoming| && ShowsMerged(unread + incoming[..k], at, shown)
    requires at < INT_LIMIT || unread + incoming == ""
    ensures shown + incoming[k..] == unread + incoming
  {
    Buffered(unread, incoming, k);
  }

  /** One chunk: transfer_mem, once its size line is read. */
  method RelayNext(from: Memory, to: Memory, total: nat, ghost unread: string, ghost incoming: string, ghost at: nat,
                   ghost v: string, ghost p: nat, ghost size: nat, ghost k: nat)
    returns (t: Outcome, ghost out: string)
    requires from != to && from.Valid() && from.Fits() && from.readIndex == at
    requires Line(unread, incoming, at, v, p, size, k) && size != 0 && total == Wrap(p + 2 + size + 2) > 0
    requires from.Unread() == unread + incoming[..k] && from.incoming == incoming[k..]
    modifies from`blocks, from`readIndex, from`writeIndex, from`readOk, from`incoming, to`outgoing
    ensures from.Valid() && from.Fits() && to.outgoing == old(to.outgoing) + out && |out| == t.n <= |unread + incoming|
    ensures from.Stream() == (unread + incoming)[t.n..] && from.readIndex == at + t.n
    ensures at < INT_LIMIT ==> |from.blocks| <= 1
    ensures at < INT_LIMIT || unread + incoming == "" ==> out <= unread + incoming
    ensures t.Stalled? ==> CanRelay(unread, incoming, at, Unending(t.n), out)
    ensures t.Done? ==> t.n == total && Follows(unread, incoming, at, total, out, from.Unread(), from.incoming, at + total)
    ensures t.Done? && at < INT_LIMIT ==> LoopFollows(unread, incoming, at, total, from.Unread(), from.incoming, at + total)
  {
    hide Buffer.Valid, Buffer.Unread, Line, Wrap, CanRelay, Follows, LoopFollows, Visible, Kept, Beyond;
    ghost var shown := Visible(from.State());
    Buffered(unread, incoming, k);
    UnreadFits(from);
    ShownIs(from.State());
    BytesGo(unread, incoming, at, v, p, size, k, shown);
    ghost var u, i := from.Unread(), from.incoming;
    t, out := TransferMem(from, to, total);
    if at < INT_LIMIT || unread + incoming == "" { ShownGoes(unread, incoming, at, k, shown); }
    if t.Done? {
      KeptIs(u, i, shown, total, from.Unread(), from.incoming);
    } else {
      assert out == shown + i;
    }
  }

  lemma UnreadFits(from: Memory)
    requires from.Valid() && from.Fits()
    ensures from.State().Reachable()
  {
  }

  /** Where a pass of the loop left off: the state before it, and the size line it read. */
  datatype Pass = Pass(unread: string, incoming: string, at: nat, v: string, p: nat, size: nat, k: nat)

  /** The size line of a pass. None: the pass ends the loop as `r` says. */
  method SizeOf(from: Memory) returns (line: Option<(nat, nat)>, r: ChunkOutcome, ghost s: Pass)
    requires from.Valid() && from.Fits() && (from.readIndex < INT_LIMIT ==> |from.blocks| <= 1)
    modifies from`blocks, from`writeIndex, from`readOk, from`incoming
    ensures from.Valid() && from.Fits() && from.Stream() == old(from.Stream()) && |from.incoming| <= old(|from.incoming|)
    ensures line.None? ==> CanRelay(old(from.Unread()), old(from.incoming), from.readIndex, r, "") && r.n == 0 && !r.Relayed?
    ensures s.unread == old(from.Unread()) && s.incoming == old(from.incoming) && s.at == from.readIndex
    ensures line.Some? ==>
              && line.value == (s.p, s.size) && Line(s.unread, s.incoming, s.at, s.v, s.p, s.size, s.k)
              && from.Unread() == s.unread + s.incoming[..s.k] && from.incoming == s.incoming[s.k..] && '\r' in from.Unread()
  {
    hide Buffer.Valid, Buffer.Unread, HexStrTo, SearchHex, Window, Reads, Find, FindFrom, Shows, Line;
    hide CanRelay, BlockBuffer.GetSome;
    ghost var unread, incoming, at, v := from.Unread(), from.incoming, from.readIndex, BlockBuffer.GetSome(from.State());
    UnreadFits(from);
    ShownIs(from.State());
    LineEnds(unread, incoming, at, v);
    var cs, p, stalled := ReadSizeLine(from);
    s := Pass(unread, incoming, at, v, 0, 0, 0);
    if stalled {
      return None, Unending(0), s;
    }
    if p == None {
      return None, Failed(0), s;
    }
    SamePrefix(cs, Window(v, incoming), p.value);
    var chunkSize := HexStrTo(cs[..p.value]);
    if chunkSize == None {
      return None, Failed(0), s;
    }
    LineIs(unread, incoming, at, v, p.value, chunkSize.value, cs, from.Unread(), from.incoming);
    s := Pass(unread, incoming, at, v, p.value, chunkSize.value, |incoming| - |from.incoming|);
    return Some((p.value, chunkSize.value)), Relayed(0), s;
  }

  lemma ProgressFacts(unread0: string, incoming0: string, at0: nat, n: nat, text: string, unread: string, incoming: string, at: nat)
    requires Progress(unread0, incoming0, at0, n, text, unread, incoming, at)
    ensures n == |text| <= |unread0 + incoming0| && unread + incoming == (unread0 + incoming0)[n..] && at == at0 + n
    ensures at0 + |unread0 + incoming0| <= INT_LIMIT ==> text == (unread0 + incoming0)[..n]
    ensures at0 + |unread0 + incoming0| <= INT_LIMIT ==> at < INT_LIMIT || unread + incoming == ""
    ensures LoopsSo(unread0, incoming0, at0, n, unread, incoming, at)
  {
    hide Follows, LoopsSo;
  }

  /** How a pass goes: on to the next, to the last size line, or the call is over as `r` says. */
  datatype Went = On | AtLast | Over(r: ChunkOutcome)

  /** What is written in all when a pass is over. */
  ghost predicate OverSo(unread0: string, incoming0: string, at0: nat, n: nat, text: string, r: ChunkOutcome, out: string) {
    && CanRelay(unread0, incoming0, at0, Plus(r, n), text + out) && !r.Relayed?
    && (at0 + |unread0 + incoming0| <= INT_LIMIT ==>
          n + |out| <= |unread0 + incoming0| && text + out == (unread0 + incoming0)[..n + |out|])
  }

  lemma IsOver(unread0: string, incoming0: string, at0: nat, n: nat, text: string, unread: string, incoming: string, at: nat,
               r: ChunkOutcome, out: string)
    requires Progress(unread0, incoming0, at0, n, text, unread, incoming, at)
    requires CanRelay(unread, incoming, at, r, out) && !r.Relayed? && |out| <= |unread + incoming|
    requires at < INT_LIMIT || unread + incoming == "" ==> out <= unread + incoming
    ensures OverSo(unread0, incoming0, at0, n, text, r, out)
  {
    hide CanRelay, Progress;
    ProgressFacts(unread0, incoming0, at0, n, text, unread, incoming, at);
    ProgressEnds(unread0, incoming0, at0, n, text, unread, incoming, at, r, out);
  }

  /** One pass of the loop of transfer_chunk. */
  method OnePass(from: Memory, to: Memory, ghost unread0: string, ghost incoming0: string, ghost at0: nat, ghost n: nat, ghost text: string)
    returns (went: Went, m: nat, ghost out: string, ghost s: Pass)
    requires from != to && from.Valid() && from.Fits() && (from.readIndex < INT_LIMIT ==> |from.blocks| <= 1)
    requires Progress(unread0, incoming0, at0, n, text, from.Unread(), from.incoming, from.readIndex)
    modifies from`blocks, from`readIndex, from`writeIndex, from`readOk, from`incoming, to`outgoing
    ensures from.Valid() && from.Fits() && (went.On? && from.readIndex < INT_LIMIT ==> |from.blocks| <= 1)
    ensures to.outgoing == old(to.outgoing) + out && |out| == m <= |old(from.Stream())|
    ensures from.Stream() == old(from.Stream())[m..]
    ensures went.On? ==>
              && Progress(unread0, incoming0, at0, n + m, text + out, from.Unread(), from.incoming, from.readIndex)
              && (m > 0 || |from.incoming| < old(|from.incoming|))
    ensures went.Over? ==> went.r.n == m && OverSo(unread0, incoming0, at0, n, text, went.r, out)
    ensures went.AtLast? ==>
              && out == "" && '\r' in from.Unread() && s.at == from.readIndex
              && Progress(unread0, incoming0, at0, n, text, s.unread, s.incoming, s.at)
              && Line(s.unread, s.incoming, s.at, s.v, s.p, 0, s.k)
              && from.Unread() == s.unread + s.incoming[..s.k] && from.incoming == s.incoming[s.k..]
  {
    hide Buffer.Valid, Buffer.Unread, Wrap, Progress, Line, CanRelay, Follows, LoopFollows, OverSo;
    ghost var sent := to.outgoing;
    var before := |from.incoming|;
    ProgressFacts(unread0, incoming0, at0, n, text, from.Unread(), from.incoming, from.readIndex);
    var line, r;
    line, r, s := SizeOf(from);
    m, out := 0, "";
    if line == None {
      IsOver(unread0, incoming0, at0, n, text, s.unread, s.incoming, s.at, r, "");
      return Over(r), 0, "", s;
    }
    var (p, size) := line.value;
    if size == 0 {
      return AtLast, 0, "", s;
    }
    var total := Wrap(p + 2 + size + 2);
    if total == 0 {
      NothingGoes(s.unread, s.incoming, s.at, s.v, p, size, s.k);
      if before == |from.incoming| {
        IsOver(unread0, incoming0, at0, n, text, s.unread, s.incoming, s.at, Unending(0), "");
        return Over(Unending(0)), 0, "", s;
      }
      // transfer_mem of 0 bytes
      var _ := from.MergeSome();
      ProgressOn(unread0, incoming0, at0, n, text, s.unread, s.incoming, s.at, 0, "", from.Unread(), from.incoming);
      return On, 0, "", s;
    }
    var t;
    t, out := RelayNext(from, to, total, s.unread, s.incoming, s.at, s.v, p, size, s.k);
    m := t.n;
    if t.Stalled? {
      IsOver(unread0, incoming0, at0, n, text, s.unread, s.incoming, s.at, Unending(t.n), out);
      return Over(Unending(t.n)), m, out, s;
    }
    ProgressOn(unread0, incoming0, at0, n, text, s.unread, s.incoming, s.at, total, out, from.Unread(), from.incoming);
    return On, m, out, s;
  }

  /** The loop of transfer_chunk: chunk after chunk, until a size line reads as zero (`last`). */
  method RelayChunks(from: Memory, to: Memory) returns (last: bool, r: ChunkOutcome, ghost text: string, ghost s: Pass)
    requires from != to && from.Valid() && from.Fits() && |from.blocks| <= 1
    modifies from`blocks, from`readIndex, from`writeIndex, from`readOk, from`incoming, to`outgoing
    ensures from.Valid() && from.Fits() && to.outgoing == old(to.outgoing) + text && |text| == r.n <= |old(from.Stream())|
    ensures from.Stream() == old(from.Stream())[r.n..]
    ensures !last ==> CanRelay(old(from.Unread()), old(from.incoming), old(from.readIndex), r, text) && !r.Relayed?
    ensures !last && old(from.readIndex) + |old(from.Stream())| <= INT_LIMIT ==> text == old(from.Stream())[..r.n]
    ensures last ==>
              && r.Relayed? && '\r' in from.Unread() && s.at == from.readIndex
              && Progress(old(from.Unread()), old(from.incoming), old(from.readIndex), r.n, text, s.unread, s.incoming, s.at)
              && Line(s.unread, s.incoming, s.at, s.v, s.p, 0, s.k)
              && from.Unread() == s.unread + s.incoming[..s.k] && from.incoming == s.incoming[s.k..]
  {
    hide Buffer.Valid, Buffer.Unread, Wrap, Progress, Line, CanRelay, Follows, LoopFollows;
    ghost var unread0, incoming0, at0, sent := from.Unread(), from.incoming, from.readIndex, to.outgoing;
    ProgressStart(unread0, incoming0, at0);
    var n: nat := 0;
    text := "";
    while true
      invariant from.Valid() && from.Fits() && (from.readIndex < INT_LIMIT ==> |from.blocks| <= 1)
      invariant to.outgoing == sent + text && |text| == n <= |unread0 + incoming0|
      invariant from.Stream() == (unread0 + incoming0)[n..]
      invariant Progress(unread0, incoming0, at0, n, text, from.Unread(), from.incoming, from.readIndex)
      decreases |unread0 + incoming0| - n, |from.incoming|
    {
      var went, m;
      ghost var out;
      went, m, out, s := OnePass(from, to, unread0, incoming0, at0, n, text);
      Whole(unread0 + incoming0, n, text, m, out);
      Appended(sent, text, out);
      text := text + out;
      n := n + m;
      if went.AtLast? {
        return true, Relayed(n), text, s;
      }
      if went.Over? {
        return false, Plus(went.r, n - m), text, s;
      }
    }
  }

  lemma Appended(sent: string, text: string, out: string)
    ensures sent + text + out == sent + (text + out) && (out == "" ==> text + out == text)
  {
  }

  lemma SamePrefix(a: string, b: string, p: nat)
    requires a <= b && p <= |a|
    ensures a[..p] == b[..p]
  {
  }

  // ---------- well-formed chunks ----------

  lemma NoLineYet(line: string, s: string)
    requires '\r' !in line && s <= line + CRLF && |s| < |line| + 2
    ensures Find(s, CRLF) == None
  {
    forall k | 0 <= k ensures !OccursAt(s, CRLF, k) {
      if OccursAt(s, CRLF, k) {
        assert (line + CRLF)[k] == s[k];
        OccursHead(s, CRLF, k);
      }
    }
  }

  lemma LineFirst(line: string, s: string)
    requires '\r' !in line && line + CRLF <= s
    ensures Find(s, CRLF) == Some(|line|) && s[..|line|] == line
  {
    assert s == line + CRLF + s[|line| + 2..];
    FindAfter(s, CRLF, line, s[|line| + 2..], '\r');
  }

  /** A stream that starts with a size line shows it in the window, buffered or not, and the
      bytes in the buffer afterwards hold it. */
  lemma LineInWindow(unread: string, incoming: string, line: string)
    requires IsLine(line) && line + CRLF <= unread + incoming
    ensures var w := Window(unread, incoming);
            && Find(w, CRLF) == Some(|line|) && w[..|line|] == line
    ensures if |unread| >= |line| + 2 then |CStr(unread)| >= |line| + 2 else CStr(unread) == unread
  {
    hide CStr, Find, FindFrom;
    assert '\0' !in line + CRLF;
    if |unread| >= |line| + 2 {
      assert line + CRLF <= unread;
      CStrKeeps(unread, line + CRLF);
      LineFirst(line, CStr(unread));
    } else {
      assert unread <= line + CRLF;
      CStrKeeps(unread, unread);
      assert CStr(unread) == unread;
      NoLineYet(line, unread);
      LineTaken(line, unread + incoming);
      LineFirst(line, Take(unread + incoming, LINE_MAX));
    }
  }

  lemma LineTaken(line: string, s: string)
    requires |line| <= 16 && line + CRLF <= s
    ensures line + CRLF <= Take(s, LINE_MAX)
  {
  }

  /** A longer line is refused, unless it was in the buffer already. */
  lemma LongLineFails(line: string, rest: string, at: nat, e: LoopEnd)
    requires '\r' !in line && |line| > 16 && at < INT_LIMIT && CanLoop("", line + CRLF + rest, at, e)
    ensures e == FailedAt(0)
  {
    hide Find, FindFrom, HexStrTo, CanGoOn, Reads;
    var s := line + CRLF + rest;
    assert CStr("") == "" && "" + s == s;
    var w := Take(s, LINE_MAX);
    NoLineYet(line, "");
    assert w == (line + CRLF)[..LINE_MAX];
    NoLineYet(line, w);
    assert Window("", s) == w;
  }

  /** The first size line of what is left of a body. */
  function SizeLine(chunks: seq<Chunk>): string {
    if chunks == [] then "0" else chunks[0].Line()
  }

  lemma SizeOfLine(chunks: seq<Chunk>)
    requires WellFormed(chunks)
    ensures IsLine(SizeLine(chunks))
    ensures HexStrTo(SizeLine(chunks)) == Some(if chunks == [] then 0 else |chunks[0].data|)
    ensures chunks != [] ==> chunks[0].data != ""
  {
    if chunks != [] {
      assert chunks[0].Valid();
      SizeReadExactly(chunks[0].size, chunks[0].ext);
    }
  }

  /** A body of chunks, the last size line, and whatever comes then. */
  function Body(chunks: seq<Chunk>, tail: string): string {
    Data(chunks) + (ZERO + tail)
  }

  lemma BodyStart(chunks: seq<Chunk>, tail: string)
    requires WellFormed(chunks)
    ensures SizeLine(chunks) + CRLF <= Body(chunks, tail)
    ensures chunks == [] ==> Data(chunks) == "" && Body(chunks, tail) == ZERO + tail
    ensures chunks != [] ==>
              var total := |chunks[0].Line()| + 2 + |chunks[0].data| + 2;
              && |Data(chunks)| == total + |Data(chunks[1..])| && WellFormed(chunks[1..])
              && total <= |Body(chunks, tail)| && Body(chunks, tail)[total..] == Body(chunks[1..], tail)
  {
    if chunks != [] {
      var c := chunks[0];
      BodyText(c.Line(), CRLF, c.data, Data(chunks[1..]), ZERO + tail);
    } else {
      assert Data(chunks) + (ZERO + tail) == ZERO + tail;
    }
  }

  lemma BodyText(size: string, crlf: string, data: string, more: string, end: string)
    ensures var s := size + crlf + data + crlf + more + end;
            && size + crlf <= s && |size + crlf + data + crlf| == |size| + 2 * |crlf| + |data|
            && s[|size| + |crlf| + |data| + |crlf|..] == more + end
  {
  }

  lemma WrapInt(x: nat)
    requires x <= SIZE_RANGE - 1
    ensures Wrap(x) == x
  {
  }

  /** The rest of the first buffer contents after the chunks. */
  function Rest(unread: string, d: nat): string {
    if d <= |unread| then unread[d..] else ""
  }

  /** The bytes relayed before a size line at 2 GiB or later. */
  function Reached(chunks: seq<Chunk>, at: nat): (n: nat)
    ensures n <= |Data(chunks)|
  {
    if at >= INT_LIMIT || chunks == [] then 0
    else |EncodeChunk(chunks[0])| + Reached(chunks[1..], at + |EncodeChunk(chunks[0])|)
  }

  /** The loop relays well-formed chunks, up to a size line at 2 GiB or later if there is one,
      and otherwise ends at the last size line, with that line in the buffer; if it was there
      from the start, nothing was read. */
  lemma {:induction false} LoopOnData(chunks: seq<Chunk>, tail: string, unread: string, incoming: string, at: nat, e: LoopEnd)
    requires WellFormed(chunks) && unread + incoming == Body(chunks, tail)
    requires CanLoop(unread, incoming, at, e) && (at + |Data(chunks)| < INT_LIMIT || |unread + incoming| < SIZE_RANGE)
    ensures at + |Data(chunks)| < INT_LIMIT ==>
              && e.Last? && e.n == |Data(chunks)| && 3 <= e.seen <= |ZERO + tail|
              && (ZERO <= Rest(unread, e.n) ==> e.seen == |Rest(unread, e.n)|)
    ensures at + |Data(chunks)| >= INT_LIMIT ==> e.Crossed? && e.n == Reached(chunks, at)
    decreases |chunks|
  {
    hide Window, Find, FindFrom, HexStrTo, Wrap, CanLoop, CanGoOn, Data, Body, Reads, CStr, WellFormed, Left, Coming, IsLine, Reached, Rest;
    BodyStart(chunks, tail);
    ReachedStep(chunks, at);
    if at >= INT_LIMIT {
      CrossedOnly(unread, incoming, at, e);
      return;
    }
    SizeOfLine(chunks);
    var line, all := SizeLine(chunks), unread + incoming;
    LineInWindow(unread, incoming, line);
    var k := LoopSome(unread, incoming, at, |line|, HexStrTo(line).value, e);
    ReadsLine(unread, incoming, |line|, k);
    if chunks == [] {
      GoOnLast(unread, incoming, at, |line|, k, e);
      RestOfAll(unread);
    } else {
      var size := |chunks[0].data|;
      var total := |line| + 2 + size + 2;
      WrapInt(total);
      GoOnNext(unread, incoming, at, |line|, size, k, e);
      LeftThenComing(all, k, total);
      var u, i := Left(all, k, total), Coming(all, k, total);
      LoopOnData(chunks[1..], tail, u, i, at + total, Less(e, total));
      RestKept(unread, incoming, k, total, |Data(chunks[1..])|);
    }
  }

  lemma RestOfAll(unread: string)
    ensures Rest(unread, 0) == unread && (ZERO <= unread ==> |unread| >= 3)
  {
  }

  lemma ReachedStep(chunks: seq<Chunk>, at: nat)
    ensures at >= INT_LIMIT || chunks == [] ==> Reached(chunks, at) == 0
    ensures at < INT_LIMIT && chunks != [] ==>
              var total := |chunks[0].Line()| + 2 + |chunks[0].data| + 2;
              Reached(chunks, at) == total + Reached(chunks[1..], at + total)
    ensures chunks == [] ==> |Data(chunks)| == 0
  {
    if chunks != [] {
      hide Data;
      assert |EncodeChunk(chunks[0])| == |chunks[0].Line()| + 2 + |chunks[0].data| + 2;
    }
  }

  lemma {:induction false} ReachedPast(chunks: seq<Chunk>, at: nat)
    ensures at + |Data(chunks)| >= INT_LIMIT ==> at + Reached(chunks, at) >= INT_LIMIT
    decreases |chunks|
  {
    if at < INT_LIMIT && chunks != [] {
      ReachedPast(chunks[1..], at + |EncodeChunk(chunks[0])|);
    }
  }

  lemma CrossedOnly(unread: string, incoming: string, at: nat, e: LoopEnd)
    requires at >= INT_LIMIT && CanLoop(unread, incoming, at, e)
    ensures e == Crossed(0, |unread|)
  {
  }

  lemma LoopSome(unread: string, incoming: string, at: nat, p: nat, size: nat, e: LoopEnd) returns (k: nat)
    requires CanLoop(unread, incoming, at, e) && at < INT_LIMIT
    requires var w := Window(unread, incoming); Find(w, CRLF) == Some(p) && HexStrTo(w[..p]) == Some(size)
    ensures Reads(unread, incoming, p, k) && |unread| <= k <= |unread + incoming|
    ensures CanGoOn(unread, incoming, at, p, size, k, e)
  {
    hide Window, Find, FindFrom, HexStrTo, CanGoOn, CStr;
    k :| Reads(unread, incoming, p, k) && CanGoOn(unread, incoming, at, p, size, k, e);
  }

  lemma ReadsLine(unread: string, incoming: string, p: nat, k: nat)
    requires Reads(unread, incoming, p, k)
    requires if |unread| >= p + 2 then |CStr(unread)| >= p + 2 else CStr(unread) == unread
    ensures p + 2 <= k && (|unread| >= p + 2 ==> k == |unread|)
    ensures |unread| < p + 2 ==> k <= p + 1 + LOAD_SIZE
  {
    hide CStr;
  }

  lemma GoOnLast(unread: string, incoming: string, at: nat, p: nat, k: nat, e: LoopEnd)
    requires |unread| <= k <= |unread + incoming| && CanGoOn(unread, incoming, at, p, 0, k, e)
    ensures e == Last(0, k)
  {
    hide CanLoop;
  }

  lemma GoOnNext(unread: string, incoming: string, at: nat, p: nat, size: nat, k: nat, e: LoopEnd)
    requires |unread| <= k <= |unread + incoming| && CanGoOn(unread, incoming, at, p, size, k, e) && size > 0
    requires 0 < Wrap(p + 2 + size + 2) == p + 2 + size + 2 <= |unread + incoming|
    ensures var all, total := unread + incoming, p + 2 + size + 2;
            e.n >= total && CanLoop(Left(all, k, total), Coming(all, k, total), at + total, Less(e, total))
  {
    hide CanLoop, Left, Coming, Wrap;
  }

  lemma LeftThenComing(all: string, k: nat, total: nat)
    requires k <= |all| && total <= |all|
    ensures Left(all, k, total) + Coming(all, k, total) == all[total..]
  {
    if total <= k { assert all[total..k] + all[k..] == all[total..]; }
  }

  lemma RestKept(unread: string, incoming: string, k: nat, total: nat, d: nat)
    requires |unread| <= k <= |unread + incoming| && total <= |unread + incoming|
    requires total + d <= |unread| ==> k == |unread|
    ensures total + d <= |unread| ==>
              Rest(Left(unread + incoming, k, total), d) == Rest(unread, total + d)
    ensures total + d > |unread| ==> !(ZERO <= Rest(unread, total + d))
  {
    var all := unread + incoming;
    if total + d <= |unread| {
      assert all[total..|unread|] == unread[total..];
      assert unread[total..][d..] == unread[total + d..];
    }
  }

  lemma ReadsIf(unread: string, incoming: string, p: nat, k: nat)
    requires if |unread| >= p + 2 then |CStr(unread)| >= p + 2 && k == |unread|
             else CStr(unread) == unread && p + 2 <= k <= |unread + incoming| && k <= p + 1 + LOAD_SIZE
    ensures Reads(unread, incoming, p, k)
  {
    hide CStr;
  }

  /** Every buffer contents the last read can bring is possible. */
  lemma {:induction false} LoopsTo(chunks: seq<Chunk>, tail: string, unread: string, incoming: string, at: nat, seen: nat)
    requires WellFormed(chunks) && unread + incoming == Body(chunks, tail)
    requires at + |Data(chunks)| < INT_LIMIT
    requires 3 <= seen <= |ZERO + tail|
    requires if ZERO <= Rest(unread, |Data(chunks)|) then seen == |Rest(unread, |Data(chunks)|)| else seen <= LOAD_SIZE
    ensures CanLoop(unread, incoming, at, Last(|Data(chunks)|, seen))
    decreases |chunks|
  {
    hide Window, Find, FindFrom, HexStrTo, Wrap, CanLoop, CanGoOn, Data, Body, Reads, CStr, WellFormed, Left, Coming, IsLine;
    BodyStart(chunks, tail);
    SizeOfLine(chunks);
    var line, all, e := SizeLine(chunks), unread + incoming, Last(|Data(chunks)|, seen);
    LineInWindow(unread, incoming, line);
    if chunks == [] {
      if |unread| >= 3 {
        assert unread == all[..|unread|] && ZERO == all[..3] == unread[..3];
        assert ZERO <= unread == unread[0..];
      }
      ReadsIf(unread, incoming, |line|, seen);
      LastGoOn(unread, incoming, at, |line|, seen);
      LoopPass(unread, incoming, at, |line|, 0, seen, e);
    } else {
      var size := |chunks[0].data|;
      var total := |line| + 2 + size + 2;
      var k := if |unread| >= |line| + 2 then |unread| else |line| + 2;
      WrapInt(total);
      ReadsIf(unread, incoming, |line|, k);
      LeftThenComing(all, k, total);
      var u, i := Left(all, k, total), Coming(all, k, total);
      RestOfLeft(unread, incoming, k, total, |Data(chunks[1..])|);
      LoopsTo(chunks[1..], tail, u, i, at + total, seen);
      NextGoOn(unread, incoming, at, |line|, size, k, e);
      LoopPass(unread, incoming, at, |line|, size, k, e);
    }
  }

  lemma LastGoOn(unread: string, incoming: string, at: nat, p: nat, k: nat)
    requires |unread| <= k <= |unread + incoming|
    ensures CanGoOn(unread, incoming, at, p, 0, k, Last(0, k))
  {
  }

  lemma NextGoOn(unread: string, incoming: string, at: nat, p: nat, size: nat, k: nat, e: LoopEnd)
    requires |unread| <= k <= |unread + incoming| && size > 0
    requires 0 < Wrap(p + 2 + size + 2) == p + 2 + size + 2 <= |unread + incoming| && p + 2 + size + 2 <= e.n
    requires var all, total := unread + incoming, p + 2 + size + 2;
             CanLoop(Left(all, k, total), Coming(all, k, total), at + total, Less(e, total))
    ensures CanGoOn(unread, incoming, at, p, size, k, e)
  {
    hide CanLoop, Left, Coming, Wrap;
  }

  lemma RestOfLeft(unread: string, incoming: string, k: nat, total: nat, d: nat)
    requires |unread| <= k <= |unread + incoming| && total <= |unread + incoming|
    requires k == |unread| || k < total
    ensures Rest(Left(unread + incoming, k, total), d) == Rest(unread, total + d)
  {
    var all := unread + incoming;
    if k == |unread| && total <= |unread| {
      assert all[total..|unread|] == unread[total..];
      if total + d <= |unread| { assert unread[total..][d..] == unread[total + d..]; }
    } else {
      assert ""[0..] == "";
    }
  }

  // ---------- the closing CRLFCRLF ----------

  /** A buffered trailer line of two bytes or more, not yet followed by its CR, is taken for
      the end; a single byte is waited on. */
  lemma TrailerStopsEarly(u: string)
    requires '\r' !in u
    ensures TakenForHit(ZERO + u, END) <==> |u| >= 2
  {
    hide LastStart, Contains;
    var s := ZERO + u;
    assert s[..0] == "" && s[0..|s|] == s && s[1..3] == ZERO[1..3] == CRLF;
    assert forall i :: 3 <= i < |s| ==> s[i] == u[i - 3];
    LastFresh(s, 0, |s|, -1, 1);
    forall i ensures !OccursAt(s, END, i) {
      if OccursAt(s, END, i) { OccursByte(s, END, i, 0); OccursByte(s, END, i, 2); }
    }
    FindExactly(s, END);
  }

  /** The body's closing CRLFCRLF is among the first `n` bytes. */
  ghost predicate ClosingRelayed(chunks: seq<Chunk>, tail: string, n: nat) {
    var d := |Data(chunks)|;
    d <= n <= d + |ZERO + tail| && Contains((ZERO + tail)[..n - d], END)
  }

  ghost predicate ReturnMeansClosed(chunks: seq<Chunk>, tail: string, unread: string, incoming: string, at: nat) {
    forall r, text :: CanRelay(unread, incoming, at, r, text) && r.Relayed? ==> ClosingRelayed(chunks, tail, r.n)
  }

  /** transfer_chunk returns only once the closing CRLFCRLF is relayed, under every
      fragmentation, exactly when the last size line is followed by CRLF: no trailer, and no
      early close. (If the last size line is buffered from the start nothing is read before
      the final search, and what counts is what the buffer then holds.) */
  lemma ClosedExactly(chunks: seq<Chunk>, tail: string, unread: string, incoming: string, at: nat)
    requires WellFormed(chunks) && unread + incoming == Body(chunks, tail)
    requires at + |Data(chunks)| < INT_LIMIT && |unread + incoming| < SIZE_RANGE / 4
    ensures ReturnMeansClosed(chunks, tail, unread, incoming, at)
            <==> var w := Rest(unread, |Data(chunks)|);
                 if ZERO <= w then w <= ZERO + tail && GoodStart(w, (ZERO + tail)[|w|..]) else CRLF <= tail
  {
    hide CanLoop, CanEndUntil, GoodStart, EndIsEnd, Data, WellFormed, Contains, Rest;
    var d, last := |Data(chunks)|, ZERO + tail;
    var w := Rest(unread, d);
    if ZERO <= w {
      RestIsPrefix(chunks, tail, unread, incoming);
      assert w + last[|w|..] == last && last[..|w|] == w;
      EndExactly(w, last[|w|..]);
      if EndIsEnd(w, last[|w|..]) {
        AllClosed(chunks, tail, unread, incoming, at);
      } else {
        SomeOpen(chunks, tail, unread, incoming, at, |w|);
      }
    } else if CRLF <= tail {
      AllClosed(chunks, tail, unread, incoming, at);
    } else {
      var seen := TrailerFails(tail);
      SomeOpen(chunks, tail, unread, incoming, at, seen);
    }
  }

  lemma RestIsPrefix(chunks: seq<Chunk>, tail: string, unread: string, incoming: string)
    requires unread + incoming == Body(chunks, tail)
    ensures Rest(unread, |Data(chunks)|) <= ZERO + tail
  {
    hide Data;
    var d := |Data(chunks)|;
    assert Body(chunks, tail)[d..] == ZERO + tail;
    if d <= |unread| { assert unread[d..] == (unread + incoming)[d..|unread|] == (ZERO + tail)[..|unread| - d]; }
  }

  lemma BodyEnd(chunks: seq<Chunk>, tail: string, all: string, seen: nat)
    requires all == Body(chunks, tail) && seen <= |ZERO + tail|
    ensures var d := |Data(chunks)|;
            && d + seen <= |all| && all[d..d + seen] == (ZERO + tail)[..seen] && all[d + seen..] == (ZERO + tail)[seen..]
  {
    hide Data;
  }

  lemma AllClosed(chunks: seq<Chunk>, tail: string, unread: string, incoming: string, at: nat)
    requires WellFormed(chunks) && unread + incoming == Body(chunks, tail)
    requires at + |Data(chunks)| < INT_LIMIT && |unread + incoming| < SIZE_RANGE / 4
    requires var w := Rest(unread, |Data(chunks)|);
             if ZERO <= w then |w| <= |ZERO + tail| && (ZERO + tail)[..|w|] == w && EndIsEnd(w, (ZERO + tail)[|w|..])
             else CRLF <= tail
    ensures ReturnMeansClosed(chunks, tail, unread, incoming, at)
  {
    hide CanLoop, CanEndUntil, EndIsEnd, Data, WellFormed, Contains, Rest;
    var d, last, all := |Data(chunks)|, ZERO + tail, unread + incoming;
    forall r, text | CanRelay(unread, incoming, at, r, text) && r.Relayed? ensures ClosingRelayed(chunks, tail, r.n) {
      var e :| CanLoop(unread, incoming, at, e) && EndsAs(all, at, e, r, text);
      LoopOnData(chunks, tail, unread, incoming, at, e);
      BodyEnd(chunks, tail, all, e.seen);
      if !(ZERO <= Rest(unread, d)) { PlainEndIsEnd(last, e.seen); }
      EndIsEndAt(last, e.seen, Done(r.n - d));
    }
  }

  lemma EndIsEndAt(last: string, seen: nat, r: Outcome)
    requires seen <= |last| && EndIsEnd(last[..seen], last[seen..]) && r.Done?
    requires CanEndUntil(END, last[..seen], last[seen..], r)
    ensures r.n <= |last| && Contains(last[..r.n], END)
  {
    assert last[..seen] + last[seen..] == last;
    hide CanEndUntil, Contains;
  }

  lemma SomeOpen(chunks: seq<Chunk>, tail: string, unread: string, incoming: string, at: nat, seen: nat)
    requires WellFormed(chunks) && unread + incoming == Body(chunks, tail)
    requires at + |Data(chunks)| < INT_LIMIT && |unread + incoming| < SIZE_RANGE / 4
    requires 3 <= seen <= |ZERO + tail| && !EndIsEnd((ZERO + tail)[..seen], (ZERO + tail)[seen..])
    requires if ZERO <= Rest(unread, |Data(chunks)|) then seen == |Rest(unread, |Data(chunks)|)| else seen <= LOAD_SIZE
    ensures !ReturnMeansClosed(chunks, tail, unread, incoming, at)
  {
    hide CanLoop, CanEndUntil, Data, WellFormed, Contains, Rest;
    var d, last, all := |Data(chunks)|, ZERO + tail, unread + incoming;
    assert last[..seen] + last[seen..] == last;
    var o: Outcome :| CanEndUntil(END, last[..seen], last[seen..], o) && o.Done?
                      && !(o.n <= |last| && Contains(last[..o.n], END));
    LoopsTo(chunks, tail, unread, incoming, at, seen);
    BodyEnd(chunks, tail, all, seen);
    var r := ChunkOutcome.Relayed(d + o.n);
    UntilInside(last[..seen], last[seen..], o);
    assert o.n <= |last|;
    assert EndsAs(all, at, Last(d, seen), r, all[..r.n]);
    assert CanRelay(unread, incoming, at, r, all[..r.n]);
  }

  /** A normal end of transfer_mem_until is within the stream. */
  lemma UntilInside(v: string, i: string, t: Outcome)
    requires CanEndUntil(END, v, i, t)
    ensures t.n <= |v + i|
  {
    hide Contains, TakenForHit, NoStart, LastStart, KeepsWaiting;
    if !Contains(v, END) && !TakenForHit(v, END) && !NoStart(v, END) { EndInside(END, v + i, |v|, LastStart(END, "", v, -1), t); }
  }

  /** A body that is cut right after its last size line is reported as complete. */
  lemma CutBodyReturns(chunks: seq<Chunk>, incoming: string)
    requires WellFormed(chunks) && incoming == Body(chunks, "") && |incoming| < INT_LIMIT
    ensures CanRelay("", incoming, 0, ChunkOutcome.Relayed(|incoming|), incoming)
  {
    hide CanLoop, CanEndUntil, Data, WellFormed;
    assert ZERO + "" == ZERO && "" + incoming == incoming;
    LoopsTo(chunks, "", "", incoming, 0, 3);
    BodyEnd(chunks, "", incoming, 3);
    ClosedAfterZero(Done(3));
    var d := |Data(chunks)|;
    assert incoming[..|incoming|] == incoming;
    assert EndsAs(incoming, 0, Last(d, 3), ChunkOutcome.Relayed(d + 3), incoming);
  }

  // ---------- past 2 GiB ----------

  /** A piece of `s` at the front of `text`, before which `skip` bytes of `s` are left out. */
  predicate Piece(text: string, s: string, skip: nat, w: nat) {
    2 <= skip && 0 < w <= |text| && skip + w <= |s| && text[..w] == s[skip..skip + w]
  }

  /** All of `text` is pieces of `s`, in order, before each of which bytes are left out. */
  ghost predicate Pieces(text: string, s: string)
    decreases |s|
  {
    text == "" || exists skip: nat, w: nat :: Piece(text, s, skip, w) && Pieces(text[w..], s[skip + w..])
  }

  lemma MorePieces(text: string, s: string, skip: nat, w: nat)
    requires 2 <= skip && w <= |text| && skip + w <= |s| && text[..w] == s[skip..][..w] && Pieces(text[w..], s[skip..][w..])
    ensures Pieces(text, s)
  {
    Shift(s, skip, w);
    if w > 0 {
      assert Piece(text, s, skip, w);
    } else {
      assert text[0..] == text && s[skip..][0..] == s[skip..];
      LaterPieces(text, s, skip);
    }
  }

  lemma LaterPieces(text: string, s: string, n: nat)
    requires n <= |s| && Pieces(text, s[n..])
    ensures Pieces(text, s)
  {
    if text != "" {
      var skip: nat, w: nat :| Piece(text, s[n..], skip, w) && Pieces(text[w..], s[n..][skip + w..]);
      Shift(s, n, skip);
      Shift(s, n, skip + w);
      assert s[n..][skip..skip + w] == s[n + skip..n + skip + w];
      assert Piece(text, s, n + skip, w);
    }
  }

  lemma Shift(s: string, n: nat, k: nat)
    requires n + k <= |s|
    ensures s[n..][k..] == s[n + k..] && s[n..][..k] == s[n..n + k]
  {
  }

  /** Together they are shorter than what they are taken from. */
  lemma {:induction false} PiecesLength(text: string, s: string)
    requires Pieces(text, s)
    ensures text == "" || |text| + 2 <= |s|
    decreases |s|
  {
    if text != "" {
      var skip: nat, w: nat :| Piece(text, s, skip, w) && Pieces(text[w..], s[skip + w..]);
      PiecesLength(text[w..], s[skip + w..]);
    }
  }

  /** Where get_some shows nothing (up to 4 GiB), the bytes read with a size line are never
      written: all that is written comes from behind them, in order. */
  lemma {:induction false} SkipWrites(unread: string, incoming: string, at: nat, r: ChunkOutcome, text: string)
    requires INT_LIMIT <= at && at + |unread + incoming| <= INT_RANGE && CanSkip(unread, incoming, at, r, text)
    ensures |text| == r.n && Pieces(text, incoming) && (text == "" || |text| + 2 <= |incoming|)
    decreases |unread + incoming|, |incoming|
  {
    hide CanSkip, CanSkipOn, Window, Find, FindFrom, HexStrTo, Reads, Kept, Pieces;
    var p, size, k := SkipLine(unread, incoming, at, r, text);
    NoPieces(incoming);
    if k > 0 {
      var u, i, total := unread + incoming[..k], incoming[k..], Wrap(p + 2 + size + 2);
      Buffered(unread, incoming, k);
      SkipOn(unread, incoming, at, p, size, k, r, text);
      var w := if size != 0 && total <= |i| then total else r.n;
      if size != 0 && total == 0 {
        SkipWrites(u, i, at, r, text);
        assert text[0..] == text && i[0..] == i;
      } else if size != 0 && total <= |i| {
        KeptLength(u, i, total);
        SkipWrites(Kept(u, i, "", total), i[total..], at + total, r.(n := r.n - total), text[total..]);
      } else {
        NoPieces(i[w..]);
      }
      MorePieces(text, incoming, k, w);
    }
    PiecesLength(text, incoming);
  }

  lemma NoPieces(s: string)
    ensures Pieces("", s)
  {
  }

  /** The size line is read from the socket alone, `k` bytes with it; or there is none, and
      `k` is 0. */
  lemma SkipLine(unread: string, incoming: string, at: nat, r: ChunkOutcome, text: string) returns (p: nat, size: nat, k: nat)
    requires INT_LIMIT <= at && at + |unread + incoming| <= INT_RANGE && CanSkip(unread, incoming, at, r, text)
    ensures k == 0 ==> text == "" && r.n == 0
    ensures k > 0 ==> 2 <= k <= |incoming| && Line(unread, incoming, at, "", p, size, k)
                      && CanSkipOn(unread, incoming, at, p, size, k, r, text)
  {
    hide CanSkipOn, Window, Find, FindFrom, HexStrTo;
    assert CanSkipLine(unread, "", incoming, at, r, text);
    var w := Window("", incoming);
    p, size, k := 0, 0, 0;
    if Find(w, CRLF).Some? && HexStrTo(w[..Find(w, CRLF).value]).Some? {
      p, size := Find(w, CRLF).value, HexStrTo(w[..Find(w, CRLF).value]).value;
      k :| k <= |incoming| && Reads("", incoming, p, |""| + k) && CanSkipOn(unread, incoming, at, p, size, k, r, text);
      assert CStr("") == "";
    }
  }

  lemma SkipOn(unread: string, incoming: string, at: nat, p: nat, size: nat, k: nat, r: ChunkOutcome, text: string)
    requires INT_LIMIT <= at < INT_RANGE && 0 < k <= |incoming| && CanSkipOn(unread, incoming, at, p, size, k, r, text)
    ensures var u, i, total := unread + incoming[..k], incoming[k..], Wrap(p + 2 + size + 2);
            if size != 0 && total == 0 then CanSkip(u, i, at, r, text)
            else if size == 0 then r.n <= |i| && text == i[..r.n]
            else if total > |i| then r.n == |i| && text == i
            else r.n >= total && |text| >= total && text[..total] == i[..total]
                 && CanSkip(Kept(u, i, "", total), i[total..], at + total, r.(n := r.n - total), text[total..])
  {
    hide CanSkip, CanEndUntil, Kept;
    var i := incoming[k..];
    assert "" + i == i;
  }

  lemma KeptLength(u: string, i: string, total: nat)
    requires total <= |i|
    ensures Kept(u, i, "", total) + i[total..] == (u + i)[total..]
  {
    assert u + i == u + i[..total] + i[total..];
  }

  /** A body that is the whole stream is relayed, under every fragmentation, if its last size
      line starts below 2 GiB; if not, then under none: the size line at 2 GiB or later is not
      written. */
  lemma WholeExactly(chunks: seq<Chunk>, unread: string, incoming: string, at: nat, r: ChunkOutcome, text: string)
    requires WellFormed(chunks) && unread + incoming == Encode(chunks) && at + |Encode(chunks)| <= INT_RANGE
    requires CanRelay(unread, incoming, at, r, text)
    ensures text == Encode(chunks) <==> at + |Data(chunks)| < INT_LIMIT
    ensures at + |Data(chunks)| < INT_LIMIT ==> r == Relayed(|Encode(chunks)|)
    ensures at + |Data(chunks)| >= INT_LIMIT ==>
              var d := Reached(chunks, at);
              d <= |text| == r.n <= |Encode(chunks)| - 2 && text[..d] == Encode(chunks)[..d]
  {
    hide CanRelay, Data, WellFormed, Reached;
    if at + |Data(chunks)| < INT_LIMIT {
      WholeBelow(chunks, unread, incoming, at, r, text);
    } else {
      WholePast(chunks, unread, incoming, at, r, text);
    }
  }

  /** Whatever follows such a body: the chunks below 2 GiB are written, and then nothing but
      pieces of what is behind the bytes that are unread at the first size line past it, more of
      which are left out before each piece. */
  lemma Overtaken(chunks: seq<Chunk>, tail: string, unread: string, incoming: string, at: nat, r: ChunkOutcome, text: string)
    returns (seen: nat)
    requires WellFormed(chunks) && unread + incoming == Body(chunks, tail) && at + |unread + incoming| <= INT_RANGE
    requires CanRelay(unread, incoming, at, r, text) && at + |Data(chunks)| >= INT_LIMIT
    ensures var d, all := Reached(chunks, at), unread + incoming;
            && d <= |text| == r.n && d + seen <= |all| && text[..d] == all[..d]
            && Pieces(text[d..], all[d + seen..])
  {
    hide CanLoop, CanEndUntil, Data, WellFormed, Contains, CanSkip, Reached, Body, Pieces;
    var all := unread + incoming;
    var e :| CanLoop(unread, incoming, at, e) && EndsAs(all, at, e, r, text);
    LoopOnData(chunks, tail, unread, incoming, at, e);
    ReachedPast(chunks, at);
    seen := e.seen;
    var d, u, i := e.n, all[e.n..e.n + seen], all[e.n + seen..];
    assert u + i == all[d..];
    SkipWrites(u, i, at + d, r.(n := r.n - d), text[d..]);
  }

  lemma WholeBelow(chunks: seq<Chunk>, unread: string, incoming: string, at: nat, r: ChunkOutcome, text: string)
    requires WellFormed(chunks) && unread + incoming == Encode(chunks) && at + |Data(chunks)| < INT_LIMIT
    requires CanRelay(unread, incoming, at, r, text)
    ensures text == Encode(chunks) && r == Relayed(|Encode(chunks)|)
  {
    hide CanLoop, CanEndUntil, Encode, WellFormed, Contains, CanSkip;
    var all := unread + incoming;
    assert Encode(chunks) + "" == Encode(chunks);
    PlainEnds(chunks, "", unread, incoming, at, r, text);
    var e :| CanLoop(unread, incoming, at, e) && EndsAs(all, at, e, r, text);
    PlainLoop(chunks, "", unread, incoming, at, e);
    var last, more := all[e.n..e.n + e.seen], all[e.n + e.seen..];
    assert last + more == all[e.n..];
    PlainBody(chunks, "", unread, incoming, at, e.n, last, more, Done(r.n - e.n));
    assert all[..|all|] == all;
  }

  lemma WholePast(chunks: seq<Chunk>, unread: string, incoming: string, at: nat, r: ChunkOutcome, text: string)
    requires WellFormed(chunks) && unread + incoming == Encode(chunks) && at + |Encode(chunks)| <= INT_RANGE
    requires CanRelay(unread, incoming, at, r, text) && at + |Data(chunks)| >= INT_LIMIT
    ensures var d := Reached(chunks, at);
            d <= |text| == r.n <= |Encode(chunks)| - 2 && text[..d] == Encode(chunks)[..d]
  {
    hide CanLoop, CanEndUntil, Data, WellFormed, Contains, CanSkip, Reached;
    var all := unread + incoming;
    assert Body(chunks, CRLF) == Encode(chunks);
    var e :| CanLoop(unread, incoming, at, e) && EndsAs(all, at, e, r, text);
    LoopOnData(chunks, CRLF, unread, incoming, at, e);
    ReachedPast(chunks, at);
    var u, i := all[e.n..e.n + e.seen], all[e.n + e.seen..];
    assert u + i == all[e.n..];
    SkipWrites(u, i, at + e.n, r.(n := r.n - e.n), text[e.n..]);
  }

  /** Without a trailer: how the whole ends, from how the loop did. */
  lemma PlainBody(chunks: seq<Chunk>, rest: string, unread: string, incoming: string, at: nat, n: nat, last: string, more: string, t: Outcome)
    requires WellFormed(chunks) && unread + incoming == Encode(chunks) + rest
    requires at + |Data(chunks)| < INT_LIMIT
    requires CanLoop(unread, incoming, at, Last(n, |last|)) && CanEndUntil(END, last, more, t)
    requires n <= |unread + incoming| && last + more == (unread + incoming)[n..]
    ensures n + 5 == |Encode(chunks)| && t.Done? && t.n >= 5 && (t.n == 5 || (t.n == |last| && Contains(last, END)))
  {
    hide CanLoop, CanEndUntil, Data, WellFormed, Contains, Find, FindFrom;
    var tail := CRLF + rest;
    assert Encode(chunks) + rest == Body(chunks, tail);
    LoopOnData(chunks, tail, unread, incoming, at, Last(n, |last|));
    assert (unread + incoming)[n..] == ZERO + tail;
    PlainSeen(last, more, tail, t);
  }

  lemma LastLoop(unread: string, incoming: string, at: nat, n: nat, s: Pass, v: string)
    requires LoopsSo(unread, incoming, at, n, s.unread, s.incoming, s.at) && Line(s.unread, s.incoming, s.at, s.v, s.p, 0, s.k)
    requires ShowsMerged(s.unread + s.incoming[..s.k], s.at, v)
    ensures s.at < INT_LIMIT ==> CanLoop(unread, incoming, at, Last(n, |v|)) && v == s.unread + s.incoming[..s.k]
    ensures s.at >= INT_LIMIT ==> exists e: LoopEnd :: e.Crossed? && CanLoop(unread, incoming, at, e)
  {
    hide CanLoop, Window, Find, FindFrom, HexStrTo, Reads;
    if s.at < INT_LIMIT {
      Buffered(s.unread, s.incoming, s.k);
      LastGoOn(s.unread, s.incoming, s.at, s.p, |v|);
      LoopPass(s.unread, s.incoming, s.at, s.p, 0, |v|, Last(0, |v|));
      assert CanLoop(unread, incoming, at, Later(Last(0, |v|), n));
    }
  }

  /** However the call ends on such a body, it returns normally. */
  lemma PlainEnds(chunks: seq<Chunk>, rest: string, unread: string, incoming: string, at: nat, r: ChunkOutcome, text: string)
    requires WellFormed(chunks) && unread + incoming == Encode(chunks) + rest
    requires at + |Data(chunks)| < INT_LIMIT && CanRelay(unread, incoming, at, r, text)
    ensures r.Relayed? && text <= unread + incoming
  {
    hide CanLoop, CanEndUntil, Encode, WellFormed, Contains, CanSkip;
    var all := unread + incoming;
    var e :| CanLoop(unread, incoming, at, e) && EndsAs(all, at, e, r, text);
    PlainLoop(chunks, rest, unread, incoming, at, e);
    var last, more := all[e.n..e.n + e.seen], all[e.n + e.seen..];
    assert last + more == all[e.n..];
    if r.Unending? { PlainBody(chunks, rest, unread, incoming, at, e.n, last, more, Outcome.Stalled(r.n - e.n)); }
  }

  /** And the whole body is relayed. */
  lemma PlainRelayed(chunks: seq<Chunk>, rest: string, unread: string, incoming: string, at: nat, r: ChunkOutcome, text: string)
    requires WellFormed(chunks) && unread + incoming == Encode(chunks) + rest
    requires at + |Data(chunks)| < INT_LIMIT && CanRelay(unread, incoming, at, r, text)
    ensures r.Relayed? && r.n == |text| && Encode(chunks) <= text <= unread + incoming
  {
    hide CanLoop, CanEndUntil, Encode, WellFormed, Contains, CanSkip;
    var all := unread + incoming;
    PlainEnds(chunks, rest, unread, incoming, at, r, text);
    var e :| CanLoop(unread, incoming, at, e) && EndsAs(all, at, e, r, text);
    PlainLoop(chunks, rest, unread, incoming, at, e);
    var last, more := all[e.n..e.n + e.seen], all[e.n + e.seen..];
    assert last + more == all[e.n..];
    PlainBody(chunks, rest, unread, incoming, at, e.n, last, more, Done(r.n - e.n));
  }

  /** A body written as the standard has it is relayed below 2 GiB under every fragmentation:
      with nothing behind it exactly. */
  lemma WrittenRelayed(datas: seq<string>, digits: string, rest: string, unread: string, incoming: string, at: nat,
                       r: ChunkOutcome, text: string)
    requires Sized(datas) && (digits == HEX_SMALL || digits == HEX_CAPITAL)
    requires unread + incoming == ChunkedText(datas, digits) + rest && at + |ChunkedText(datas, digits)| <= 0x8000_0000
    requires CanRelay(unread, incoming, at, r, text)
    ensures r == Relayed(|text|) && ChunkedText(datas, digits) <= text <= unread + incoming
    ensures rest == "" ==> text == ChunkedText(datas, digits)
  {
    hide CanRelay, ChunkedText, ChunksOf, WellFormed, Data;
    WrittenBody(datas, digits);
    PlainRelayed(ChunksOf(datas, digits), rest, unread, incoming, at, r, text);
  }

  /** Nothing but the last size line ends the loop on such a body. */
  lemma PlainLoop(chunks: seq<Chunk>, rest: string, unread: string, incoming: string, at: nat, e: LoopEnd)
    requires WellFormed(chunks) && unread + incoming == Encode(chunks) + rest
    requires at + |Data(chunks)| < INT_LIMIT && CanLoop(unread, incoming, at, e)
    ensures e.Last?
  {
    hide CanLoop, Data, WellFormed;
    assert Encode(chunks) + rest == Body(chunks, CRLF + rest);
    LoopOnData(chunks, CRLF + rest, unread, incoming, at, e);
  }

  lemma PlainSeen(last: string, more: string, tail: string, t: Outcome)
    requires last + more == ZERO + tail && CRLF <= tail && |last| >= 3 && CanEndUntil(END, last, more, t)
    ensures t == Done(if |last| < 5 then 5 else |last|) && (|last| >= 5 ==> Contains(last, END))
  {
    hide CanEndUntil, Contains, Find, FindFrom;
    assert ZERO == (ZERO + tail)[..3] == (last + more)[..3] == last[..3];
    assert ZERO + CRLF <= last + more;
    PlainEnd(last, more, t);
    ZeroFirst(last + more);
    NotYet(END, last + more, |last|);
    assert (last + more)[..|last|] == last;
  }

  /** What follows the last size line: transfer_mem_until the closing CRLFCRLF. */
  method RelayLast(from: Memory, to: Memory, ghost unread: string, ghost incoming: string, ghost at: nat, ghost n: nat,
                   ghost text: string, ghost s: Pass)
    returns (t: Outcome, ghost out: string)
    requires from != to && from.Valid() && from.Fits() && s.at == from.readIndex && '\r' in from.Unread()
    requires Progress(unread, incoming, at, n, text, s.unread, s.incoming, s.at) && Line(s.unread, s.incoming, s.at, s.v, s.p, 0, s.k)
    requires from.Unread() == s.unread + s.incoming[..s.k] && from.incoming == s.incoming[s.k..]
    modifies from`blocks, from`readIndex, from`writeIndex, from`readOk, from`incoming, to`outgoing
    ensures from.Valid() && to.outgoing == old(to.outgoing) + out && |out| == t.n <= |old(from.Stream())|
    ensures from.Stream() <= old(from.Stream())[t.n..]
    ensures CanRelay(unread, incoming, at, Plus(Of(t), n), text + out)
    ensures s.at >= INT_LIMIT ==> exists e: LoopEnd :: e.Crossed? && CanLoop(unread, incoming, at, e)
    // below 2 GiB the size line is still in the buffer, so no byte is dropped
    ensures s.at < INT_LIMIT ==>
              && CanLoop(unread, incoming, at, Last(n, |old(from.Unread())|))
              && CanEndUntil(END, old(from.Unread()), old(from.incoming), t)
              && out == old(from.Stream())[..t.n] && from.Stream() == old(from.Stream())[t.n..]
              && (Contains(old(from.Unread()), END) ==> from.Unread() == "")
  {
    hide Buffer.Valid, Buffer.Unread, CanLoop, CanEndUntil, Contains, CanRelay, Progress, Line, Visible;
    hide Find, FindFrom, NoStart, TakenForHit, Straddles, LoopsSo;
    ghost var v, more := Visible(from.State()), from.incoming;
    UnreadFits(from);
    ShownIs(from.State());
    StartSeen(END, from.Unread());
    ProgressFacts(unread, incoming, at, n, text, s.unread, s.incoming, s.at);
    LastLoop(unread, incoming, at, n, s, v);
    t, out := TransferMemUntil(from, to, END);
    LastEnds(s.unread, s.incoming, s.at, s.v, s.p, s.k, v, t);
    ProgressEnds(unread, incoming, at, n, text, s.unread, s.incoming, s.at, Of(t), out);
    UntilIs(END, v, more, t);
    DroppedPrefix(old(from.Unread()), more, v, t.n, from.Stream());
  }

  lemma DroppedPrefix(u: string, i: string, v: string, n: nat, left: string)
    requires v <= u && n <= |u + i| && (left == (u + i)[n..] || (n == |v| && left == u[n..]))
    ensures left <= (u + i)[n..]
  {
  }

  /** What transfer_chunk promises of the bytes: how it ends is one of the ways it can; below
      2 GiB, whatever arrives, the next bytes are written and none is lost; a well-formed body
      there is relayed, and more is written only out of the buffer. `left` is the stream
      afterwards, `u` its unread part. */
  ghost predicate Promise(chunks: seq<Chunk>, rest: string, unread: string, incoming: string, at: nat, r: ChunkOutcome,
                          text: string, left: string, u: string)
  {
    var all := unread + incoming;
    && CanRelay(unread, incoming, at, r, text) && |text| == r.n <= |all| && left <= all[r.n..]
    && (at + |all| <= INT_LIMIT ==> text == all[..r.n] && left == all[r.n..])
    && (WellFormed(chunks) && all == Encode(chunks) + rest && at + |Data(chunks)| < INT_LIMIT ==>
          && r.Relayed? && |Encode(chunks)| <= r.n && text == all[..r.n] && left == all[r.n..]
          && (r.n == |Encode(chunks)| || u == ""))
  }

  lemma Whole(all: string, n: nat, text: string, m: nat, out: string)
    requires n <= |all| && m <= |all[n..]|
    ensures n + m <= |all| && all[n..][m..] == all[n + m..]
    ensures text == all[..n] && out == all[n..][..m] ==> text + out == all[..n + m]
  {
    if text == all[..n] && out == all[n..][..m] { assert all[..n] + all[n..][..m] == all[..n + m]; }
  }

  method TransferChunk(from: Memory, to: Memory, ghost chunks: seq<Chunk>, ghost rest: string)
    returns (r: ChunkOutcome, ghost text: string)
    requires from != to && from.Valid() && from.Fits()
    modifies from`blocks, from`readIndex, from`writeIndex, from`readOk, from`incoming, to`outgoing
    ensures from.Valid() && to.outgoing == old(to.outgoing) + text
    ensures Promise(chunks, rest, old(from.Unread()), old(from.incoming), old(from.readIndex), r, text, from.Stream(), from.Unread())
  {
    hide Buffer.Valid, Buffer.Unread, Merge, CanLoop, CanEndUntil, Contains, CanRelay, Progress, Line, LoopsSo, Promise;
    ghost var unread, incoming, at := from.Unread(), from.incoming, from.readIndex;
    var _ := from.MergeSome();
    ghost var s;
    var last;
    last, r, text, s := RelayChunks(from, to);
    if last {
      ghost var n, v, more := r.n, from.Unread(), from.incoming;
      var t;
      ghost var out;
      t, out := RelayLast(from, to, unread, incoming, at, n, text, s);
      LastPromise(chunks, rest, unread, incoming, at, n, text, s, v, more, t, out, from.Stream(), from.Unread());
      Seqs.Join(old(to.outgoing), text, out);
      text := text + out;
      r := Plus(Of(t), r.n);
    } else {
      EarlyPromise(chunks, rest, unread, incoming, at, r, text, from.Stream(), from.Unread());
    }
  }

  lemma EarlyPromise(chunks: seq<Chunk>, rest: string, unread: string, incoming: string, at: nat, r: ChunkOutcome,
                     text: string, left: string, u: string)
    requires CanRelay(unread, incoming, at, r, text) && !r.Relayed? && |text| == r.n <= |unread + incoming|
    requires left == (unread + incoming)[r.n..]
    requires at + |unread + incoming| <= INT_LIMIT ==> text == (unread + incoming)[..r.n]
    ensures Promise(chunks, rest, unread, incoming, at, r, text, left, u)
  {
    hide Encode, WellFormed, CanRelay;
    PlainNot(chunks, rest, unread, incoming, at, r, text);
  }

  lemma LastPromise(chunks: seq<Chunk>, rest: string, unread: string, incoming: string, at: nat, n: nat, text: string, s: Pass,
                    v: string, more: string, t: Outcome, out: string, left: string, u: string)
    requires Progress(unread, incoming, at, n, text, s.unread, s.incoming, s.at) && n == |text| <= |unread + incoming|
    requires v + more == (unread + incoming)[n..] && v != "" && |out| == t.n <= |v + more| && left <= (v + more)[t.n..]
    requires CanRelay(unread, incoming, at, Plus(Of(t), n), text + out)
    requires s.at >= INT_LIMIT ==> exists e: LoopEnd :: e.Crossed? && CanLoop(unread, incoming, at, e)
    requires s.at < INT_LIMIT ==>
               && CanLoop(unread, incoming, at, Last(n, |v|)) && CanEndUntil(END, v, more, t)
               && out == (v + more)[..t.n] && left == (v + more)[t.n..] && (Contains(v, END) ==> u == "")
    ensures Promise(chunks, rest, unread, incoming, at, Plus(Of(t), n), text + out, left, u)
  {
    hide Encode, WellFormed, CanRelay, CanLoop, CanEndUntil, Contains, Progress, LoopsSo;
    ProgressFacts(unread, incoming, at, n, text, s.unread, s.incoming, s.at);
    Whole(unread + incoming, n, text, t.n, out);
    PlainWhole(chunks, rest, unread, incoming, at, n, v, more, t, s.at, Plus(Of(t), n), text + out);
  }

  lemma PlainWhole(chunks: seq<Chunk>, rest: string, unread: string, incoming: string, at: nat, n: nat, last: string, more: string,
                   t: Outcome, lastAt: nat, r: ChunkOutcome, text: string)
    requires CanRelay(unread, incoming, at, r, text) && r.n == n + t.n
    requires n <= |unread + incoming| && last + more == (unread + incoming)[n..]
    requires lastAt >= INT_LIMIT ==> exists e: LoopEnd :: e.Crossed? && CanLoop(unread, incoming, at, e)
    requires lastAt < INT_LIMIT ==> CanLoop(unread, incoming, at, Last(n, |last|)) && CanEndUntil(END, last, more, t)
    ensures WellFormed(chunks) && unread + incoming == Encode(chunks) + rest && at + |Data(chunks)| < INT_LIMIT ==>
              && r.Relayed? && |Encode(chunks)| <= r.n && text <= unread + incoming && lastAt < INT_LIMIT
              && (r.n == |Encode(chunks)| || Contains(last, END))
  {
    hide CanLoop, CanEndUntil, Encode, WellFormed, Contains, CanRelay;
    if WellFormed(chunks) && unread + incoming == Encode(chunks) + rest && at + |Data(chunks)| < INT_LIMIT {
      PlainEnds(chunks, rest, unread, incoming, at, r, text);
      if lastAt >= INT_LIMIT {
        var e: LoopEnd :| e.Crossed? && CanLoop(unread, incoming, at, e);
        PlainLoop(chunks, rest, unread, incoming, at, e);
      } else {
        PlainBody(chunks, rest, unread, incoming, at, n, last, more, t);
      }
    }
  }

  lemma PlainNot(chunks: seq<Chunk>, rest: string, unread: string, incoming: string, at: nat, r: ChunkOutcome, text: string)
    requires CanRelay(unread, incoming, at, r, text) && !r.Relayed?
    ensures !(WellFormed(chunks) && unread + incoming == Encode(chunks) + rest && at + |Data(chunks)| < INT_LIMIT)
  {
    hide Encode, WellFormed, CanRelay;
    if WellFormed(chunks) && unread + incoming == Encode(chunks) + rest && at + |Data(chunks)| < INT_LIMIT {
      PlainEnds(chunks, rest, unread, incoming, at, r, text);
    }
  }
}
