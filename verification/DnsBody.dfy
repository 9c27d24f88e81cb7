/** The front of dnshttps::parse_rfc8484: the body of a reply, of known length or put together
    from its chunks (section 3.6.1 of RFC 2616). */
module DnsBody {
  import opened Wrappers
  import opened Bytes
  import opened Strings
  import opened Numerals
  import opened Hex
  import Seqs
  import Closing

  const HEAD_END := Closing.END
  const MAX_CHUNK := 65535
  const ULONG_MAX := 0xffff_ffff_ffff_ffff

  /** The characters of a reply as the bytes of a message. */
  function Octets(s: string): (b: bytes)
    ensures |b| == |s|
  {
    seq(|s|, i requires 0 <= i < |s| => s[i] as int % 256)
  }

  /** The bytes of a message as characters. */
  function Text(b: bytes): (s: string)
    ensures |s| == |b|
  {
    seq(|b|, i requires 0 <= i < |b| => b[i] as char)
  }

  lemma OctetsOfText(b: bytes)
    ensures Octets(Text(b)) == b
  {
  }

  // ---------- strtoul with base 16 ----------

  predicate IsSpace(c: char) { c == ' ' || '\t' <= c <= '\r' }

  function SkipSpace(s: string): string {
    if s != "" && IsSpace(s[0]) then SkipSpace(s[1..]) else s
  }

  predicate HasPrefix(u: string) {
    |u| > 2 && u[0] == '0' && (u[1] == 'x' || u[1] == 'X') && IsHex(u[2])
  }

  /** Blanks, a sign and 0x may come first; what does not fit is ULONG_MAX, and a minus sign
      negates the unsigned value. */
  function StrToUl(s: string): nat {
    var t := SkipSpace(s);
    var negative := t != "" && t[0] == '-';
    var u := if t != "" && (t[0] == '-' || t[0] == '+') then t[1..] else t;
    var v := HexValue(HexRun(if HasPrefix(u) then u[2..] else u, |u|));
    if v > ULONG_MAX then ULONG_MAX else if negative && v > 0 then ULONG_MAX + 1 - v else v
  }

  /** Blanks, a sign, a prefix and a number in hexadecimal: the number, or 2^64 less it with a
      minus sign; too large a one is 2^64 - 1. */
  lemma StrToUlExactly(blanks: string, sign: string, prefix: string, n: nat, digits: string, rest: string)
    requires forall i :: 0 <= i < |blanks| ==> blanks[i] in " \t\n\r" || blanks[i] == '\U{0b}' || blanks[i] == '\U{0c}'
    requires sign in {"", "+", "-"} && prefix in {"", "0x", "0X"} && (digits == HEX_SMALL || digits == HEX_CAPITAL)
    requires rest == "" || !IsHex(rest[0])
    // without a prefix, 0x1 is not such a number
    requires prefix == "" && n == 0 ==> rest == "" || (rest[0] != 'x' && rest[0] != 'X')
    ensures StrToUl(blanks + sign + prefix + Written(n, digits) + rest)
            == if n > 0xffff_ffff_ffff_ffff then 0xffff_ffff_ffff_ffff
               else if sign == "-" && n > 0 then 0x1_0000_0000_0000_0000 - n
               else n
  {
    hide HexValue, HexRun, Written, HexDigit, IsHex, SkipSpace, HasPrefix;
    var number := Written(n, digits);
    var u := prefix + number + rest;
    var t := sign + u;
    WrittenInHex(n, digits);
    HexBytes(number[0]);
    SignFirst(sign, prefix, number, rest);
    BlanksSkipped(blanks, t);
    Behind(blanks, sign, prefix, number, rest);
    NumberRead(prefix, n, digits, rest);
  }

  lemma Behind(a: string, b: string, c: string, d: string, e: string)
    ensures a + b + c + d + e == a + (b + (c + d + e))
  {
  }

  lemma HexBytes(c: char)
    ensures IsHex(c) ==> c != '-' && c != '+' && !IsSpace(c)
  {
  }

  lemma SignFirst(sign: string, prefix: string, number: string, rest: string)
    requires sign in {"", "+", "-"} && prefix in {"", "0x", "0X"} && number != ""
    requires number[0] != '-' && number[0] != '+' && !IsSpace(number[0])
    ensures var u := prefix + number + rest; var t := sign + u;
            && t != "" && !IsSpace(t[0]) && (t[0] == '-' <==> sign == "-") && (t[0] == '+' <==> sign == "+")
            && (sign != "" ==> t[1..] == u) && (sign == "" ==> t == u)
  {
  }

  lemma NumberRead(prefix: string, n: nat, digits: string, rest: string)
    requires prefix in {"", "0x", "0X"} && (digits == HEX_SMALL || digits == HEX_CAPITAL)
    requires rest == "" || !IsHex(rest[0])
    requires prefix == "" && n == 0 ==> rest == "" || (rest[0] != 'x' && rest[0] != 'X')
    ensures var u := prefix + Written(n, digits) + rest;
            HexValue(HexRun(if HasPrefix(u) then u[2..] else u, |u|)) == n
  {
    hide HexValue, HexRun, Written, HexDigit;
    var number := Written(n, digits);
    WrittenInHex(n, digits);
    OneZero(n, digits);
    var u := prefix + number + rest;
    HexRunIs(number, rest, |u|);
    if prefix == "" {
      assert u == number + rest;
      if |number| > 1 { assert IsHex(number[1]); }
    } else {
      assert u[2..] == number + rest && u[2] == number[0];
    }
  }

  lemma OneZero(n: nat, digits: string)
    requires digits == HEX_SMALL || digits == HEX_CAPITAL
    ensures n == 0 ==> Written(n, digits) == "0"
  {
  }

  lemma {:induction false} BlanksSkipped(blanks: string, t: string)
    requires forall i :: 0 <= i < |blanks| ==> blanks[i] in " \t\n\r" || blanks[i] == '\U{0b}' || blanks[i] == '\U{0c}'
    requires t == "" || !IsSpace(t[0])
    ensures SkipSpace(blanks + t) == t
  {
    if blanks == "" {
      assert blanks + t == t;
    } else {
      assert (blanks + t)[1..] == blanks[1..] + t && (blanks + t)[0] == blanks[0];
      BlanksSkipped(blanks[1..], t);
    }
  }

  // ---------- the loop over the chunks ----------

  /** What the loop makes of the text from a size line on. */
  function Chunks(t: string): Option<string>
    decreases |t|
  {
    match Find(t, CRLF)
    case None => None
    case Some(nl) =>
      var cl := StrToUl(t);
      if cl == 0 then Some("")
      else if cl > MAX_CHUNK || nl + 2 + cl + 2 > |t| then None
      else match Chunks(t[nl + 2 + cl + 2..])
           case None => None
           case Some(data) => Some(t[nl + 2..nl + 2 + cl] + data)
  }

  /** The chunks start behind the head of the reply. */
  function FromChunks(reply: string): Option<string> {
    match Find(reply, HEAD_END)
    case None => None
    case Some(p) => if p + 4 >= |reply| then None else Chunks(reply[p + 4..])
  }

  function BodyOf(reply: string, contentIdx: Option<nat>, cl: nat): Option<string>
    requires contentIdx.Some? ==> contentIdx.value <= |reply|
  {
    if cl > 0 && contentIdx.Some? then
      if |reply| - contentIdx.value < cl then None else Some(reply[contentIdx.value..])
    else FromChunks(reply)
  }

  function Before(done: string, more: Option<string>): Option<string> {
    match more
    case None => None
    case Some(data) => Some(done + data)
  }

  method Reassemble(reply: string) returns (body: Option<string>)
    ensures body == FromChunks(reply)
  {
    hide Find, StrToUl, Chunks;
    var end := Find(reply, HEAD_END);
    if end == None || end.value + 4 >= |reply| {
      return None;
    }
    var idx := end.value + 4;
    var dnsReply: string := "";
    ghost var all := Chunks(reply[idx..]);
    Nothing(all);
    while true
      invariant idx <= |reply| && all == Before(dnsReply, Chunks(reply[idx..]))
      decreases |reply| - idx
    {
      ghost var t := reply[idx..];
      ChunksStep(t);
      var nl := Find(reply[idx..], CRLF);
      if nl == None {
        return None;
      }
      var cl := StrToUl(reply[idx..]);
      if cl == 0 {
        break;
      }
      if cl > MAX_CHUNK || idx + nl.value + 2 + cl + 2 > |reply| {
        return None;
      }
      idx := idx + nl.value + 2;
      assert reply[idx..idx + cl] == t[nl.value + 2..nl.value + 2 + cl];
      assert reply[idx + cl + 2..] == t[nl.value + 2 + cl + 2..];
      Gathered(dnsReply, reply[idx..idx + cl], Chunks(reply[idx + cl + 2..]));
      dnsReply := dnsReply + reply[idx..idx + cl];
      idx := idx + cl + 2;
    }
    assert dnsReply + "" == dnsReply;
    return Some(dnsReply);
  }

  lemma ChunksStep(t: string)
    ensures Chunks(t) == match Find(t, CRLF)
                         case None => None
                         case Some(nl) =>
                           var cl := StrToUl(t);
                           if cl == 0 then Some("")
                           else if cl > MAX_CHUNK || nl + 2 + cl + 2 > |t| then None
                           else Before(t[nl + 2..nl + 2 + cl], Chunks(t[nl + 2 + cl + 2..]))
  {
  }

  lemma Nothing(more: Option<string>)
    ensures Before("", more) == more
  {
    if more.Some? { assert "" + more.value == more.value; }
  }

  lemma Gathered(done: string, data: string, more: Option<string>)
    ensures Before(done, Before(data, more)) == Before(done + data, more)
  {
    if more.Some? { Seqs.Join(done, data, more.value); }
  }

  // ---------- chunked bodies as section 3.6.1 of RFC 2616 writes them ----------

  /** A size, with any leading zeros, and an extension. */
  datatype Size = Size(digits: string, ext: string) {
    ghost predicate Valid() {
      digits != "" && AllHex(digits) && '\r' !in ext && (ext == "" || ext[0] == ';')
    }

    function Line(): string { digits + ext + CRLF }
  }

  datatype Chunk = Chunk(size: Size, data: string)

  ghost predicate ValidChunk(c: Chunk) {
    c.size.Valid() && HexValue(c.size.digits) == |c.data| > 0
  }

  ghost predicate ValidChunks(chunks: seq<Chunk>, last: Size) {
    && (forall k :: 0 <= k < |chunks| ==> ValidChunk(chunks[k]))
    && last.Valid() && HexValue(last.digits) == 0
  }

  /** The chunks, the last size line, and anything after it. */
  function Encode(chunks: seq<Chunk>, last: Size, after: string): string {
    if chunks == [] then last.Line() + after
    else chunks[0].size.Line() + (chunks[0].data + CRLF + Encode(chunks[1..], last, after))
  }

  function Data(chunks: seq<Chunk>): string {
    if chunks == [] then "" else chunks[0].data + Data(chunks[1..])
  }

  predicate Small(chunks: seq<Chunk>) {
    forall k :: 0 <= k < |chunks| ==> |chunks[k].data| <= MAX_CHUNK
  }

  /** A size line reads as its digits, up to what an unsigned long holds. */
  lemma SizeRead(size: Size, rest: string)
    requires size.Valid()
    ensures var v := HexValue(size.digits); StrToUl(size.Line() + rest) == if v > ULONG_MAX then ULONG_MAX else v
  {
    hide HexValue, HexRun;
    var after := size.ext + CRLF + rest;
    assert size.Line() + rest == size.digits + after;
    HexRunIs(size.digits, after, |size.digits + after|);
    assert IsHex(size.digits[0]);
    assert |size.digits| > 1 ==> IsHex(size.digits[1]);
  }

  /** The first line end is the size line's. */
  lemma LineFirst(size: Size, rest: string)
    requires size.Valid()
    ensures var t := size.Line() + rest;
            && Find(t, CRLF) == Some(|size.digits + size.ext|)
            && t[|size.digits + size.ext| + 2..] == rest
  {
    var line, t := size.digits + size.ext, size.Line() + rest;
    assert t == line + CRLF + rest;
    assert forall i :: 0 <= i < |size.digits| ==> IsHex(size.digits[i]);
    FindAfter(t, CRLF, line, rest, '\r');
  }

  /** The body is put together from its chunks exactly when none is over 65535 bytes, whatever
      comes after the last size line. */
  lemma {:induction false} ChunksExactly(chunks: seq<Chunk>, last: Size, after: string)
    requires ValidChunks(chunks, last)
    ensures Chunks(Encode(chunks, last, after)) == if Small(chunks) then Some(Data(chunks)) else None
  {
    hide Find, StrToUl, Chunks, HexValue;
    var t := Encode(chunks, last, after);
    ChunksStep(t);
    if chunks == [] {
      SizeRead(last, after);
      LineFirst(last, after);
    } else {
      assert ValidChunk(chunks[0]);
      var c, more := chunks[0], Encode(chunks[1..], last, after);
      var rest := c.data + CRLF + more;
      SizeRead(c.size, rest);
      LineFirst(c.size, rest);
      ChunksExactly(chunks[1..], last, after);
      DataFirst(t, |t| - |rest|, c.data, more);
      assert Small(chunks) <==> |c.data| <= MAX_CHUNK && Small(chunks[1..]);
    }
  }

  lemma DataFirst(t: string, p: nat, data: string, more: string)
    requires p <= |t| && t[p..] == data + CRLF + more
    ensures p + |data| + 2 <= |t| && t[p..p + |data|] == data && t[p + |data| + 2..] == more
  {
    assert t[p..][..|data|] == t[p..p + |data|];
    assert t[p..][|data| + 2..] == t[p + |data| + 2..];
  }

  /** A chunked reply: its head, to the first empty line, and such a body. */
  lemma ReplyExactly(head: string, chunks: seq<Chunk>, last: Size, after: string, contentIdx: Option<nat>, cl: nat)
    requires ValidChunks(chunks, last) && (cl == 0 || contentIdx.None?)
    requires var reply := head + HEAD_END + Encode(chunks, last, after);
             && Find(reply, HEAD_END) == Some(|head|) && (contentIdx.Some? ==> contentIdx.value <= |reply|)
    ensures BodyOf(head + HEAD_END + Encode(chunks, last, after), contentIdx, cl)
            == if Small(chunks) then Some(Data(chunks)) else None
  {
    hide Find, Chunks;
    var body := Encode(chunks, last, after);
    var reply := head + HEAD_END + body;
    assert reply[|head| + 4..] == body;
    ChunksExactly(chunks, last, after);
    NotEmpty(chunks, last, after);
  }

  lemma NotEmpty(chunks: seq<Chunk>, last: Size, after: string)
    ensures Encode(chunks, last, after) != []
  {
  }

  // ---------- written as the standard has it ----------

  function ChunksOf(datas: seq<string>, digits: string): seq<Chunk>
    requires |digits| >= 2
  {
    if datas == [] then [] else [Chunk(Size(Written(|datas[0]|, digits), ""), datas[0])] + ChunksOf(datas[1..], digits)
  }

  function Joined(datas: seq<string>): string {
    if datas == [] then "" else datas[0] + Joined(datas[1..])
  }

  lemma WrittenChunks(datas: seq<string>, digits: string)
    requires Sized(datas) && (digits == HEX_SMALL || digits == HEX_CAPITAL)
    ensures ValidChunks(ChunksOf(datas, digits), Size("0", "")) && Data(ChunksOf(datas, digits)) == Joined(datas)
    ensures Encode(ChunksOf(datas, digits), Size("0", ""), "\r\n") == ChunkedText(datas, digits)
    ensures Small(ChunksOf(datas, digits)) <==> forall k :: 0 <= k < |datas| ==> |datas[k]| <= 65535
  {
    WrittenData(datas, digits);
    WrittenText(datas, digits);
  }

  lemma {:induction false} WrittenData(datas: seq<string>, digits: string)
    requires |digits| >= 2
    ensures |ChunksOf(datas, digits)| == |datas| && Data(ChunksOf(datas, digits)) == Joined(datas)
    ensures forall k :: 0 <= k < |datas| ==> ChunksOf(datas, digits)[k].data == datas[k]
  {
    hide Written;
    if datas != [] { WrittenData(datas[1..], digits); }
  }

  lemma {:induction false} WrittenText(datas: seq<string>, digits: string)
    requires Sized(datas) && (digits == HEX_SMALL || digits == HEX_CAPITAL)
    ensures ValidChunks(ChunksOf(datas, digits), Size("0", ""))
    ensures Encode(ChunksOf(datas, digits), Size("0", ""), "\r\n") == ChunkedText(datas, digits)
  {
    hide Written, IsHex, HexValue;
    ZeroSize();
    if datas != [] {
      WrittenInHex(|datas[0]|, digits);
      WrittenText(datas[1..], digits);
      LineThen(Written(|datas[0]|, digits), datas[0], ChunkedText(datas[1..], digits));
    }
  }

  lemma LineThen(size: string, data: string, more: string)
    ensures size + "" + CRLF + (data + CRLF + more) == size + "\r\n" + data + "\r\n" + more
  {
    assert size + "" == size;
  }

  lemma ZeroSize()
    ensures Size("0", "").Valid() && HexValue("0") == 0 && Size("0", "").Line() == "0\r\n"
  {
    assert "0"[..0] == "";
  }

  /** A chunked reply written as the standard has it, behind any head: its body is the data,
      exactly if none of it is over 65535 bytes. */
  lemma WrittenReply(head: string, datas: seq<string>, digits: string, contentIdx: Option<nat>)
    requires Sized(datas) && (digits == HEX_SMALL || digits == HEX_CAPITAL)
    requires var reply := head + "\r\n\r\n" + ChunkedText(datas, digits);
             Find(reply, "\r\n\r\n") == Some(|head|) && (contentIdx.Some? ==> contentIdx.value <= |reply|)
    ensures BodyOf(head + "\r\n\r\n" + ChunkedText(datas, digits), contentIdx, 0)
            == if forall k :: 0 <= k < |datas| ==> |datas[k]| <= 65535 then Some(Joined(datas)) else None
  {
    hide Find, Chunks, ChunkedText, ChunksOf, ValidChunks;
    WrittenChunks(datas, digits);
    ReplyExactly(head, ChunksOf(datas, digits), Size("0", ""), "\r\n", contentIdx, 0);
  }
}
