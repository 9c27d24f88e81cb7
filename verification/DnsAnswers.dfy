/** What the answers of a DNS message say, read without the parser's own functions: names cut at
    their dots, numbers digit by digit, labels by their lengths. */
module DnsAnswers {
  import Seqs
  import opened Wrappers
  import opened Bytes
  import opened DnsName
  import opened QName
  import opened DnsMessage
  import opened DnsEncode
  import Headers

  const SMALL := Headers.SMALL
  const CAPITAL := Headers.CAPITAL

  // ---------- texts ----------

  /** The pieces between the dots. */
  function Cut(s: bytes): (pieces: seq<bytes>)
    ensures pieces != []
  {
    if s == [] then [[]]
    else if s[0] == '.' as int then [[]] + Cut(s[1..])
    else [[s[0]] + Cut(s[1..])[0]] + Cut(s[1..])[1..]
  }

  lemma {:induction false} CutAtDot(a: bytes, b: bytes)
    requires '.' as int !in a
    ensures Cut(a + ['.' as int] + b) == [a] + Cut(b)
  {
    var s := a + ['.' as int] + b;
    if a == [] {
      assert s[1..] == b;
    } else {
      CutAtDot(a[1..], b);
      assert s[1..] == a[1..] + ['.' as int] + b && s[0] == a[0];
      Back(a, Cut(b));
    }
  }

  lemma {:induction false} CutWithoutDot(a: bytes)
    requires '.' as int !in a
    ensures Cut(a) == [a]
  {
    if a != [] {
      CutWithoutDot(a[1..]);
      Back(a, []);
    }
  }

  lemma Back(a: bytes, rest: seq<bytes>)
    requires a != []
    ensures [[a[0]] + ([a[1..]] + rest)[0]] + ([a[1..]] + rest)[1..] == [a] + rest
  {
    assert [a[0]] + a[1..] == a;
    assert [a[1..]] + [] == [a[1..]];
  }

  predicate IsNumber(s: bytes) {
    forall i :: 0 <= i < |s| ==> '0' as int <= s[i] <= '9' as int
  }

  /** The digits read from left to right, after `n`. */
  function ReadOn(n: nat, s: bytes): nat
    requires IsNumber(s)
    decreases |s|
  {
    if s == [] then n else ReadOn(10 * n + (s[0] - '0' as int), s[1..])
  }

  lemma {:induction false} ReadLast(n: nat, s: bytes, b: byte)
    requires IsNumber(s) && '0' as int <= b <= '9' as int
    ensures ReadOn(n, s + [b]) == 10 * ReadOn(n, s) + (b - '0' as int)
    decreases |s|
  {
    if s == [] {
      assert ([] + [b])[1..] == [];
    } else {
      ReadLast(10 * n + (s[0] - '0' as int), s[1..], b);
      assert (s + [b])[1..] == s[1..] + [b];
    }
  }

  lemma {:induction false} DecimalRead(n: nat)
    ensures IsNumber(Decimal(n)) && ReadOn(0, Decimal(n)) == n
    ensures Decimal(n) != [] && (Decimal(n)[0] == '0' as int <==> n == 0)
  {
    if n >= 10 {
      DecimalRead(n / 10);
      ReadLast(0, Decimal(n / 10), 48 + n % 10);
    }
  }

  /** Four numbers with dots between them. */
  predicate IsAddress(s: bytes, a: bytes) {
    && |a| == 4 && |Cut(s)| == 4
    && forall i :: 0 <= i < 4 ==> Cut(s)[i] != [] && IsNumber(Cut(s)[i]) && ReadOn(0, Cut(s)[i]) == a[i]
  }

  /** The text of an address is its four bytes, in order. */
  lemma DottedRead(a: bytes)
    requires |a| == 4
    ensures IsAddress(Dotted(a), a)
  {
    hide Decimal, ReadOn, IsNumber;
    forall i | 0 <= i < 4 ensures IsNumber(Decimal(a[i])) && ReadOn(0, Decimal(a[i])) == a[i] && Decimal(a[i]) != [] && '.' as int !in Decimal(a[i]) {
      DecimalRead(a[i]);
      NoDotIn(Decimal(a[i]));
    }
    var p, q, r, s := Decimal(a[0]), Decimal(a[1]), Decimal(a[2]), Decimal(a[3]);
    CutFour(p, q, r, s);
    assert Dotted(a) == p + ['.' as int] + q + ['.' as int] + r + ['.' as int] + s;
  }

  lemma NoDotIn(s: bytes)
    requires IsNumber(s)
    ensures '.' as int !in s
  {
  }

  lemma CutFour(p: bytes, q: bytes, r: bytes, s: bytes)
    requires '.' as int !in p && '.' as int !in q && '.' as int !in r && '.' as int !in s
    ensures Cut(p + ['.' as int] + q + ['.' as int] + r + ['.' as int] + s) == [p, q, r, s]
  {
    hide Cut;
    var dot: bytes := ['.' as int];
    CutWithoutDot(s);
    CutAtDot(r, s);
    CutAtDot(q, r + dot + s);
    CutAtDot(p, q + dot + (r + dot + s));
    assert p + dot + q + dot + r + dot + s == p + dot + (q + dot + (r + dot + s));
  }

  /** A host is its labels with dots between them, a full name has a dot after each. */
  lemma {:induction false} HostCut(labels: seq<bytes>)
    requires AreLabels(labels) && labels != []
    ensures Cut(HostOf(labels)) == labels && Cut(FullName(labels)) == labels + [[]]
  {
    hide Cut;
    assert IsLabel(labels[0]);
    if |labels| == 1 {
      CutWithoutDot(labels[0]);
      CutWithoutDot([]);
      CutAtDot(labels[0], []);
      assert FullName(labels[1..]) == [];
    } else {
      HostCut(labels[1..]);
      CutAtDot(labels[0], HostOf(labels[1..]));
      CutAtDot(labels[0], FullName(labels[1..]));
    }
  }

  /** A label in pieces of 63 bytes and a last one. */
  function Chop(l: bytes): seq<bytes> {
    if |l| <= 63 then [l] else [l[..63]] + Chop(l[63..])
  }

  /** All labels but the last in such pieces. */
  function Chopped(labels: seq<bytes>): seq<bytes> {
    if |labels| <= 1 then labels else Chop(labels[0]) + Chopped(labels[1..])
  }

  /** What a host is split into before it is encoded. */
  lemma {:induction false} SplitCut(host: bytes)
    ensures Cut(SplitHost(host)) == Chopped(Cut(host))
    decreases |host|
  {
    hide Cut, FindDot;
    match FindDot(host)
    case None =>
      CutWithoutDot(host);
      SplitLast(host);
    case Some(k) =>
      var a, b := host[..k], host[k + 1..];
      assert host == a + ['.' as int] + b;
      CutAtDot(a, b);
      assert ([a] + Cut(b))[1..] == Cut(b);
      if k > 63 {
        var more := host[63..];
        assert more == a[63..] + ['.' as int] + b && a[..63] == host[..63];
        SplitCut(more);
        CutAtDot(a[63..], b);
        assert ([a[63..]] + Cut(b))[1..] == Cut(b);
        CutAtDot(host[..63], SplitHost(more));
        SplitFirst(host, k);
        Seqs.Join([a[..63]], Chop(a[63..]), Chopped(Cut(b)));
      } else {
        SplitCut(b);
        CutAtDot(a, SplitHost(b));
        SplitFirst(host, k);
      }
  }

  lemma SplitLast(host: bytes)
    requires FindDot(host) == None
    ensures SplitHost(host) == host
  {
  }

  lemma SplitFirst(host: bytes, k: nat)
    requires FindDot(host) == Some(k)
    ensures SplitHost(host) == if k > 63 then host[..63] + ['.' as int] + SplitHost(host[63..])
                               else host[..k] + ['.' as int] + SplitHost(host[k + 1..])
  {
  }

  // ---------- names in wire form ----------

  /** Labels by their lengths, up to a zero. */
  function ReadWire(w: bytes): Option<seq<bytes>>
    decreases |w|
  {
    if w == [] then None
    else if w[0] == 0 then (if |w| == 1 then Some([]) else None)
    else if 1 + w[0] > |w| then None
    else match ReadWire(w[1 + w[0]..])
         case None => None
         case Some(labels) => Some([w[1..1 + w[0]]] + labels)
  }

  lemma {:induction false} WireRead(labels: seq<bytes>)
    requires AreLabels(labels)
    ensures ReadWire(WireName(labels)) == Some(labels)
  {
    hide WireName;
    if labels == [] {
      DnsName.RootName();
    } else {
      WireNameStep(labels);
      WireRead(labels[1..]);
      var l, w := labels[0], WireName(labels);
      assert w[1..1 + |l|] == l && w[1 + |l|..] == WireName(labels[1..]) && w[0] == |l|;
      assert [l] + labels[1..] == labels;
    }
  }

  // ---------- capitals ----------

  /** The same byte, or the same letter small and capital. */
  predicate SameLetter(a: byte, b: byte) {
    || a == b
    || (exists k :: 0 <= k < 26 && SMALL[k] as int == a && CAPITAL[k] as int == b)
    || (exists k :: 0 <= k < 26 && CAPITAL[k] as int == a && SMALL[k] as int == b)
  }

  predicate SameLetters(a: bytes, b: bytes) {
    |a| == |b| && forall i :: 0 <= i < |a| ==> SameLetter(a[i], b[i])
  }

  lemma LowerByteExactly(a: byte, b: byte)
    ensures LowerByte(a) == LowerByte(b) <==> SameLetter(a, b)
  {
    hide *;
    Headers.Alphabets();
    LowerByteIs(a);
    LowerByteIs(b);
    SameIs(a, b);
  }

  lemma LowerByteIs(a: byte)
    ensures LowerByte(a) == if 'A' as int <= a <= 'Z' as int then a + 32 else a
  {
  }

  lemma SameIs(a: byte, b: byte)
    ensures SameLetter(a, b) <==> a == b || ('a' as int <= a <= 'z' as int && b + 32 == a) || ('A' as int <= a <= 'Z' as int && a + 32 == b)
  {
    hide Headers.SMALL, Headers.CAPITAL;
    Headers.Alphabets();
    if 'a' as int <= a <= 'z' as int && b + 32 == a { assert SMALL[a - 'a' as int] as int == a; }
    if 'A' as int <= a <= 'Z' as int && a + 32 == b { assert SMALL[a - 'A' as int] as int == b; }
  }

  lemma {:induction false} LowerExactly(a: bytes, b: bytes)
    ensures Lower(a) == Lower(b) <==> SameLetters(a, b)
    decreases |a|
  {
    hide LowerByte, SameLetter;
    if a != [] && b != [] {
      LowerByteExactly(a[0], b[0]);
      LowerExactly(a[1..], b[1..]);
      assert Lower(a)[0] == LowerByte(a[0]) && Lower(a)[1..] == Lower(a[1..]);
      assert Lower(b)[0] == LowerByte(b[0]) && Lower(b)[1..] == Lower(b[1..]);
      assert SameLetters(a, b) <==> SameLetter(a[0], b[0]) && SameLetters(a[1..], b[1..]) by {
        assert forall i :: 0 < i < |a| ==> a[i] == a[1..][i - 1];
        assert forall i :: 0 < i < |b| ==> b[i] == b[1..][i - 1];
      }
    }
  }

  // ---------- answers ----------

  /** An answer that says what the record does. */
  ghost predicate Says(a: Answer, r: Record) {
    && Cut(a.name) == r.owner && a.qclass == 1 && a.ttl == r.ttl
    && match r.data
       case Address(address) => a.qtype == 1 && IsAddress(a.rdata, address)
       case LongAddress(address) => a.qtype == 28 && a.rdata == address
       case AskedFor(t, data) => (a.qtype == 2 || a.qtype == 15) && a.qtype == t && a.rdata == data
       case Alias(target, _) => a.qtype == 5 && ReadWire(a.rdata) == Some(target)
       case Other(_, _) => false
  }

  lemma AnswerSays(r: Record, question: seq<bytes>)
    requires Wanted(r, question) && AreLabels(r.owner) && r.owner != []
    ensures Says(AnswerOf(r), r)
  {
    hide Cut, IsAddress, Dotted, ReadWire, WireName, HostOf, FullName, Lower;
    HostCut(r.owner);
    match r.data {
      case Address(a) => DottedRead(a);
      case Alias(target, _) => WireRead(target);
      case _ =>
    }
  }

  /** The records that are answers: the aliases, and the addresses of the name asked for,
      whatever its capitals. */
  lemma WantedExactly(r: Record, question: seq<bytes>)
    requires Printable(r)
    ensures Wanted(r, question) <==>
              || r.data.Alias? || r.data.AskedFor?
              || ((r.data.Address? || r.data.LongAddress?) && SameLetters(FullName(r.owner), FullName(question)))
  {
    hide Lower, FullName;
    LowerExactly(FullName(r.owner), FullName(question));
  }

  function Before(rs: seq<Record>, question: seq<bytes>, i: nat): nat
    requires i <= |rs|
  {
    if i == 0 then 0 else Before(rs, question, i - 1) + if Wanted(rs[i - 1], question) then 1 else 0
  }

  lemma {:induction false} KeptAt(rs: seq<Record>, question: seq<bytes>, i: nat)
    requires i < |rs| && Wanted(rs[i], question)
    ensures Before(rs, question, i) < |Kept(rs, question)|
    ensures Kept(rs, question)[Before(rs, question, i)] == AnswerOf(rs[i])
  {
    hide Wanted, AnswerOf;
    KeptFirst(rs, question);
    if i > 0 {
      KeptAt(rs[1..], question, i - 1);
      BeforeRest(rs, question, i);
    }
  }

  lemma {:induction false} BeforeRest(rs: seq<Record>, question: seq<bytes>, i: nat)
    requires 0 < i <= |rs|
    ensures Before(rs, question, i) == Before(rs[1..], question, i - 1) + if Wanted(rs[0], question) then 1 else 0
  {
    hide Wanted;
    if i > 1 { BeforeRest(rs, question, i - 1); }
  }

  /** What a reply is parsed to: each wanted record is there, under its number among them, and
      says what the record does; under the numbers behind them nothing is changed. */
  lemma ResultSays(result0: map<nat, Answer>, rs: seq<Record>, question: seq<bytes>)
    requires forall i :: 0 <= i < |rs| ==> AreLabels(rs[i].owner) && rs[i].owner != []
    ensures var result := Numbered(result0, Kept(rs, question));
            && (forall i :: 0 <= i < |rs| && Wanted(rs[i], question) ==>
                  var n := Before(rs, question, i); n in result && Says(result[n], rs[i]))
            && (forall n: nat :: n >= Before(rs, question, |rs|) ==> (n in result <==> n in result0))
  {
    hide Wanted, Says, Numbered, Kept, AnswerOf, AreLabels;
    var kept := Kept(rs, question);
    forall i | 0 <= i < |rs| && Wanted(rs[i], question)
      ensures var n, result := Before(rs, question, i), Numbered(result0, kept); n in result && Says(result[n], rs[i])
    {
      KeptAt(rs, question, i);
      NumberedAt(result0, kept, Before(rs, question, i));
      AnswerSays(rs[i], question);
    }
    KeptCount(rs, question);
    forall n: nat | n >= Before(rs, question, |rs|) ensures n in Numbered(result0, kept) <==> n in result0 {
      NumberedAt(result0, kept, n);
    }
  }

  lemma {:induction false} KeptCount(rs: seq<Record>, question: seq<bytes>)
    ensures |Kept(rs, question)| == Before(rs, question, |rs|)
  {
    hide Wanted, AnswerOf;
    if rs != [] {
      KeptFirst(rs, question);
      KeptCount(rs[1..], question);
      BeforeRest(rs, question, |rs|);
    }
  }

  lemma {:induction false} OwnersAreNames(msg: bytes, i: nat, rs: seq<Record>, ends: seq<nat>, asked: nat, stop: nat)
    requires RecordsAt(msg, i, rs, ends, asked, stop)
    ensures forall k :: 0 <= k < |rs| ==> AreLabels(rs[k].owner) && rs[k].owner != []
    decreases |rs|
  {
    hide AreLabels, RecordAt;
    if rs != [] {
      OwnerIsName(msg, i, rs[0], ends[0], asked);
      OwnersAreNames(msg, ends[0], rs[1..], ends[1..], asked, stop);
      assert forall k :: 0 < k < |rs| ==> rs[k] == rs[1..][k - 1];
    }
  }

  lemma OwnerIsName(msg: bytes, i: nat, r: Record, next: nat, asked: nat)
    requires RecordAt(msg, i, r, next, asked)
    ensures AreLabels(r.owner) && r.owner != []
  {
    hide AreLabels, NameSize, DataAt, FullName, NameAt, Decode;
    ReadName(msg, i, r.owner, r.jumps);
  }

  /** The answers that ParseRfc8484 stores for a well-formed message. */
  lemma ReplySays(msg: bytes, question: seq<bytes>, jumps: nat, rs: seq<Record>, ends: seq<nat>, asked: nat, result0: map<nat, Answer>)
    requires WellFormedMessage(msg, question, jumps, rs, ends, asked)
    ensures var result := Numbered(result0, Kept(rs, question));
            && (forall i :: 0 <= i < |rs| && Wanted(rs[i], question) ==>
                  var n := Before(rs, question, i); n in result && Says(result[n], rs[i]))
            && (forall n: nat :: n >= Before(rs, question, |rs|) ==> (n in result <==> n in result0))
  {
    hide RecordsAt, Wanted, Says, Numbered, Kept;
    OwnersAreNames(msg, AfterName(msg, HEADER, question) + 4, rs, ends, asked, |msg|);
    ResultSays(result0, rs, question);
  }

  // ---------- what is sent ----------

  /** A response without an error, in the two bytes of section 4.1.1 of RFC 1035 that say so. */
  lemma HeaderExactly(id: bytes, counts: bytes, qr: nat, flags: nat, z: nat, rcode: nat)
    requires |id| == 2 && |counts| == 8 && qr < 2 && flags < 128 && z < 16 && rcode < 16
    ensures ResponseHeader(id + [qr * 128 + flags, z * 16 + rcode] + counts) <==> qr == 1 && rcode == 0
  {
    var msg := id + [qr * 128 + flags, z * 16 + rcode] + counts;
    assert msg[2] == qr * 128 + flags && msg[3] == z * 16 + rcode;
  }

  /** The bytes of a record: type, class, time to live and size behind its owner, the high
      bytes first, and its data. */
  lemma RecordWritten(e: Entry, ttl: seq<byte>)
    requires Fits(e) && |ttl| == 4
    requires e.record.ttl == ((ttl[0] as int * 256 + ttl[1]) * 256 + ttl[2]) * 256 + ttl[3]
    ensures e.record.data.Address? ==>
              RecordBytes(e) == NameBytes(e.record.owner, e.owner) + [0, 1, 0, 1] + ttl + [0, 4] + e.record.data.a
    ensures e.record.data.LongAddress? ==>
              RecordBytes(e) == NameBytes(e.record.owner, e.owner) + [0, 28, 0, 1] + ttl + [0, 16] + e.record.data.a
    ensures e.record.data.AskedFor? ==>
              var t, data := e.record.data.rtype, e.record.data.data;
              (t == 2 || t == 15)
              && RecordBytes(e) == NameBytes(e.record.owner, e.owner) + [0, t, 0, 1] + ttl + [|data| / 256, |data| % 256] + data
    ensures e.record.data.Alias? ==>
              var target := NameBytes(e.record.data.target, e.target);
              RecordBytes(e) == NameBytes(e.record.owner, e.owner) + [0, 5, 0, 1] + ttl + [|target| / 256, |target| % 256] + target
  {
    hide NameBytes, FixedBytes, RecordBytes;
    match e.record.data {
      case Address(a) => FixedWritten(e, ttl, 1, 4);
      case LongAddress(a) => FixedWritten(e, ttl, 28, 16);
      case Alias(target, _) => FixedWritten(e, ttl, 5, |NameBytes(target, e.target)|);
      case AskedFor(t, data) => FixedWritten(e, ttl, t, |data|);
      case Other(_, _) =>
    }
  }

  lemma FixedWritten(e: Entry, ttl: seq<byte>, t: byte, n: nat)
    requires Fits(e) && TypeOf(e.record.data) == t && n == |DataBytes(e)|
    requires |ttl| == 4 && e.record.ttl == ((ttl[0] as int * 256 + ttl[1]) * 256 + ttl[2]) * 256 + ttl[3]
    ensures RecordBytes(e) == NameBytes(e.record.owner, e.owner) + [0, t, 0, 1] + ttl + [n / 256, n % 256] + DataBytes(e)
    ensures match e.record.data
            case Address(a) => DataBytes(e) == a
            case LongAddress(a) => DataBytes(e) == a
            case Alias(target, _) => DataBytes(e) == NameBytes(target, e.target)
            case AskedFor(_, data) => DataBytes(e) == data
            case Other(_, data) => DataBytes(e) == data
  {
    TtlBytes(e.record.ttl, ttl);
    hide NameBytes, U32Bytes;
    FiveParts(NameBytes(e.record.owner, e.owner), [0, t, 0, 1], ttl, [n / 256, n % 256], DataBytes(e));
    assert FixedBytes(e) == [0, t, 0, 1] + ttl + [n / 256, n % 256];
  }

  lemma FiveParts(a: bytes, b: bytes, c: bytes, d: bytes, e: bytes)
    ensures a + (b + c + d) + e == a + b + c + d + e
  {
  }

  /** A name, whole or ending with a pointer: each label behind its length, then a zero, or the
      two bytes of section 4.1.4 of RFC 1035. */
  lemma NameWritten(labels: seq<bytes>, offset: byte)
    requires AreLabels(labels)
    ensures NameBytes([], Full) == [0] && NameBytes([], Compressed(0, offset)) == [192, offset]
    ensures labels != [] ==> NameBytes(labels, Full) == [|labels[0]|] + labels[0] + NameBytes(labels[1..], Full)
    ensures forall n: nat :: 0 < n <= |labels| ==>
              NameBytes(labels, Compressed(n, offset)) == [|labels[0]|] + labels[0] + NameBytes(labels[1..], Compressed(n - 1, offset))
  {
    Nothing(offset);
    DnsName.RootName();
    assert LabelBytes([]) == [] && labels[..0] == [];
    if labels != [] { WireNameStep(labels); }
    forall n: nat | 0 < n <= |labels|
      ensures NameBytes(labels, Compressed(n, offset)) == [|labels[0]|] + labels[0] + NameBytes(labels[1..], Compressed(n - 1, offset))
    {
      var front := labels[..n];
      assert front[0] == labels[0] && front[1..] == labels[1..][..n - 1];
      assert LabelBytes(front) == [|front[0]|] + front[0] + LabelBytes(front[1..]);
      Seqs.Join([|labels[0]|] + labels[0], LabelBytes(front[1..]), [JUMP_MARK, offset]);
    }
  }

  lemma Nothing(offset: byte)
    ensures NameBytes([], Compressed(0, offset)) == [192, offset]
  {
    var none: seq<bytes> := [];
    assert none[..0] == none && LabelBytes(none) == [];
  }

  lemma TtlBytes(n: nat, ttl: seq<byte>)
    requires |ttl| == 4 && n == ((ttl[0] as int * 256 + ttl[1]) * 256 + ttl[2]) * 256 + ttl[3]
    ensures n < 0x1_0000_0000 && U32Bytes(n) == ttl
  {
    var high, low := ttl[0] as int * 256 + ttl[1], ttl[2] as int * 256 + ttl[3];
    assert n == high * 0x1_0000 + low;
    assert n / 0x1_0000 == high && n % 0x1_0000 == low;
  }
}
