/** An encoder of DNS answers, after sections 4.1.1 to 4.1.4 of RFC 1035, and the law that
    parse_rfc8484 reads back what it writes. */
module DnsEncode {
  import Seqs
  import opened Wrappers
  import opened Bytes
  import opened DnsName
  import opened QName
  import opened DnsMessage
  import DnsBody
  import Strings

  /** How a name is written: in full, or `spelled` labels and a pointer for the others. */
  datatype Form = Full | Compressed(spelled: nat, offset: byte)

  function NameBytes(labels: seq<bytes>, form: Form): bytes
    requires AreLabels(labels) && (form.Compressed? ==> form.spelled <= |labels|)
  {
    match form
    case Full => WireName(labels)
    case Compressed(n, offset) => LabelBytes(labels[..n]) + [JUMP_MARK, offset]
  }

  /** The form suits the name: the labels left out are found at the offset. */
  predicate Resolves(msg: bytes, labels: seq<bytes>, form: Form, jumps: nat) {
    && labels != [] && AreLabels(labels) && jumps <= MAX_JUMPS && |FullName(labels)| <= MAX_NAME
    && match form
       case Full => jumps == 0
       case Compressed(n, offset) => n <= |labels| && jumps > 0 && NameAt(msg, offset, labels[n..], jumps - 1)
  }

  function U16Bytes(x: nat): bytes
    requires x < 0x1_0000
  {
    [x / 256, x % 256]
  }

  function U32Bytes(x: nat): bytes
    requires x < 0x1_0000_0000
  {
    U16Bytes(x / 0x1_0000) + U16Bytes(x % 0x1_0000)
  }

  /** A record and how its names are written. */
  datatype Entry = Entry(record: Record, owner: Form, target: Form)

  predicate ValidEntry(msg: bytes, e: Entry, asked: nat) {
    && Resolves(msg, e.record.owner, e.owner, e.record.jumps)
    && e.record.ttl < 0x1_0000_0000 && Printable(e.record)
    && match e.record.data
       case Address(a) => true
       case LongAddress(a) => true
       case AskedFor(t, data) => (t == NS || t == MX) && t == asked && 0 < |data| < 0x1_0000
       case Alias(target, jumps) => Resolves(msg, target, e.target, jumps)
       case Other(t, data) =>
         t < 0x1_0000 && t != A && t != AAAA && t != CNAME && ((t == NS || t == MX) ==> t != asked)
         && 0 < |data| < 0x1_0000
  }

  predicate Writable(e: Entry) {
    && AreLabels(e.record.owner) && (e.owner.Compressed? ==> e.owner.spelled <= |e.record.owner|)
    && e.record.ttl < 0x1_0000_0000 && Printable(e.record)
    && match e.record.data
       case Address(a) => true
       case LongAddress(a) => true
       case AskedFor(t, data) => t < 0x1_0000
       case Alias(target, jumps) => e.target.Compressed? ==> e.target.spelled <= |target|
       case Other(t, data) => t < 0x1_0000
  }

  function DataBytes(e: Entry): bytes
    requires Writable(e)
  {
    match e.record.data
    case Address(a) => a
    case LongAddress(a) => a
    case AskedFor(t, data) => data
    case Alias(target, jumps) => NameBytes(target, e.target)
    case Other(t, data) => data
  }

  /** The fields between a record's name and its data. */
  function FixedBytes(e: Entry): bytes
    requires Writable(e) && |DataBytes(e)| < 0x1_0000
  {
    U16Bytes(TypeOf(e.record.data)) + U16Bytes(CLASS_IN) + U32Bytes(e.record.ttl) + U16Bytes(|DataBytes(e)|)
  }

  predicate Fits(e: Entry) {
    Writable(e) && 0 < |DataBytes(e)| < 0x1_0000
  }

  /** A record as sent; nothing for one that cannot be written. */
  function RecordBytes(e: Entry): bytes {
    if Fits(e) then NameBytes(e.record.owner, e.owner) + FixedBytes(e) + DataBytes(e) else []
  }

  function RecordsBytes(es: seq<Entry>): bytes {
    if es == [] then [] else RecordBytes(es[0]) + RecordsBytes(es[1..])
  }

  function Records(es: seq<Entry>): seq<Record> {
    if es == [] then [] else [es[0].record] + Records(es[1..])
  }

  function Ends(es: seq<Entry>, i: nat): seq<nat> {
    if es == [] then [] else
      var next := i + |RecordBytes(es[0])|;
      [next] + Ends(es[1..], next)
  }

  // ---------- reading back each part ----------

  lemma U16Back(msg: bytes, i: nat, x: nat)
    requires x < 0x1_0000 && i + 2 <= |msg| && msg[i..i + 2] == U16Bytes(x)
    ensures U16(msg, i) == x
  {
    assert msg[i] == msg[i..i + 2][0] && msg[i + 1] == msg[i..i + 2][1];
  }

  lemma U32Back(msg: bytes, i: nat, x: nat)
    requires x < 0x1_0000_0000 && i + 4 <= |msg| && msg[i..i + 4] == U32Bytes(x)
    ensures U32(msg, i) == x
  {
    PartOf(msg, i, 4, 0, 2);
    PartOf(msg, i, 4, 2, 2);
    U16Back(msg, i, x / 0x1_0000);
    U16Back(msg, i + 2, x % 0x1_0000);
  }

  /** A piece of the message made of two parts. */
  lemma Chop(msg: bytes, i: nat, a: bytes, b: bytes)
    requires i + |a + b| <= |msg| && msg[i..i + |a + b|] == a + b
    ensures i + |a| + |b| == i + |a + b|
    ensures msg[i..i + |a|] == a && msg[i + |a|..i + |a| + |b|] == b
  {
    PartOf(msg, i, |a + b|, 0, |a|);
    PartOf(msg, i, |a + b|, |a|, |b|);
    assert (a + b)[0..|a|] == a && (a + b)[|a|..|a| + |b|] == b;
  }

  lemma PointerBytes(msg: bytes, i: nat, offset: byte)
    requires i + 2 <= |msg| && msg[i..i + 2] == [JUMP_MARK, offset]
    ensures msg[i] == JUMP_MARK && msg[i + 1] == offset
  {
    assert msg[i] == msg[i..i + 2][0] && msg[i + 1] == msg[i..i + 2][1];
  }

  lemma SpelledBack(msg: bytes, i: nat, labels: seq<bytes>, w: bytes)
    requires labels != [] && AreLabels(labels) && |FullName(labels)| <= MAX_NAME && w == WireName(labels)
    requires i + |w| <= |msg| && msg[i..i + |w|] == w
    ensures ReadableAt(msg, i, labels, 0) && NameSize(msg, i, labels) == |w|
  {
    hide WireName, FullName, NameAt, NameSize, AreLabels;
    LabelsThenRoot(msg, i, labels);
  }

  lemma PointedBack(msg: bytes, i: nat, spelled: seq<bytes>, l: bytes, offset: byte, rest: seq<bytes>, jumps: nat)
    requires AreLabels(spelled) && l == LabelBytes(spelled) && jumps < MAX_JUMPS
    requires i + |l| + 2 <= |msg| && msg[i..i + |l| + 2] == l + [JUMP_MARK, offset]
    requires NameAt(msg, offset, rest, jumps)
    requires spelled + rest != [] && |FullName(spelled + rest)| <= MAX_NAME
    ensures ReadableAt(msg, i, spelled + rest, jumps + 1) && NameSize(msg, i, spelled + rest) == |l| + 2
  {
    hide LabelBytes, FullName, NameAt, NameSize, AreLabels;
    Chop(msg, i, l, [JUMP_MARK, offset]);
    PointerBytes(msg, i + |l|, offset);
    LabelsThenPointer(msg, i, spelled, |l|, rest, jumps);
  }

  lemma NameBack(msg: bytes, i: nat, labels: seq<bytes>, form: Form, jumps: nat)
    requires Resolves(msg, labels, form, jumps)
    requires i + |NameBytes(labels, form)| <= |msg| && msg[i..i + |NameBytes(labels, form)|] == NameBytes(labels, form)
    ensures ReadableAt(msg, i, labels, jumps) && NameSize(msg, i, labels) == |NameBytes(labels, form)|
  {
    hide LabelBytes, WireName, FullName, NameAt, NameSize, ReadableAt;
    match form
    case Full => SpelledBack(msg, i, labels, WireName(labels));
    case Compressed(n, offset) =>
      assert labels == labels[..n] + labels[n..];
      PointedBack(msg, i, labels[..n], LabelBytes(labels[..n]), offset, labels[n..], jumps - 1);
  }

  lemma FixedBack(msg: bytes, j: nat, e: Entry)
    requires Fits(e) && j + 10 <= |msg| && msg[j..j + 10] == FixedBytes(e)
    ensures FieldsAt(msg, j)
            == Fields(TypeOf(e.record.data), CLASS_IN, e.record.ttl, j + 10, |DataBytes(e)|)
  {
    var t, c, l := U16Bytes(TypeOf(e.record.data)), U16Bytes(CLASS_IN), U32Bytes(e.record.ttl);
    var d := U16Bytes(|DataBytes(e)|);
    hide U16, U32, DataBytes;
    Chop(msg, j, t + c + l, d);
    Chop(msg, j, t + c, l);
    Chop(msg, j, t, c);
    U16Back(msg, j, TypeOf(e.record.data));
    U16Back(msg, j + 2, CLASS_IN);
    U32Back(msg, j + 4, e.record.ttl);
    U16Back(msg, j + 8, |DataBytes(e)|);
  }

  lemma WireLength(labels: seq<bytes>)
    requires AreLabels(labels)
    ensures |LabelBytes(labels)| == |FullName(labels)|
  {
  }

  lemma LabelsPrefix(labels: seq<bytes>, n: nat)
    requires AreLabels(labels) && n <= |labels|
    ensures |LabelBytes(labels[..n])| <= |LabelBytes(labels)|
  {
    if n > 0 {
      LabelsPrefix(labels[1..], n - 1);
      assert labels[..n][1..] == labels[1..][..n - 1];
    }
  }

  lemma NameLength(msg: bytes, labels: seq<bytes>, form: Form, jumps: nat)
    requires Resolves(msg, labels, form, jumps)
    ensures 0 < |NameBytes(labels, form)| <= MAX_NAME + 2
  {
    WireLength(labels);
    if form.Compressed? { LabelsPrefix(labels, form.spelled); }
  }

  lemma ValidFits(msg: bytes, e: Entry, asked: nat)
    requires ValidEntry(msg, e, asked)
    ensures Fits(e)
  {
    match e.record.data
    case Address(a) =>
    case LongAddress(a) =>
    case AskedFor(t, data) =>
    case Alias(target, jumps) => NameLength(msg, target, e.target, jumps);
    case Other(t, data) =>
  }

  lemma RecordParts(msg: bytes, i: nat, e: Entry)
    requires Fits(e) && i + |RecordBytes(e)| <= |msg| && msg[i..i + |RecordBytes(e)|] == RecordBytes(e)
    ensures var n := |NameBytes(e.record.owner, e.owner)|; var j := i + n; var d := DataBytes(e);
            && i + |RecordBytes(e)| == j + 10 + |d| && msg[i..i + n] == NameBytes(e.record.owner, e.owner)
            && FieldsAt(msg, j) == Fields(TypeOf(e.record.data), CLASS_IN, e.record.ttl, j + 10, |d|)
            && msg[j + 10..j + 10 + |d|] == d
  {
    var name, fixed, data := NameBytes(e.record.owner, e.owner), FixedBytes(e), DataBytes(e);
    FixedLength(e);
    assert RecordBytes(e) == name + fixed + data;
    hide NameBytes, FixedBytes, DataBytes, RecordBytes, FieldsAt, Fits;
    Chop(msg, i, name + fixed, data);
    Chop(msg, i, name, fixed);
    FixedBack(msg, i + |name|, e);
  }

  lemma DataBack(msg: bytes, e: Entry, f: Fields, asked: nat)
    requires ValidEntry(msg, e, asked) && Fits(e)
    requires f.rdlen == |DataBytes(e)| && f.data + f.rdlen <= |msg| && msg[f.data..f.data + f.rdlen] == DataBytes(e)
    ensures DataAt(msg, f, e.record.data, asked)
  {
    match e.record.data
    case Address(a) =>
    case LongAddress(a) =>
    case AskedFor(t, data) =>
    case Alias(target, jumps) =>
      hide NameAt, NameSize, NameBytes;
      NameBack(msg, f.data, target, e.target, jumps);
    case Other(t, data) =>
  }

  /** A written record stands where it was written. */
  lemma RecordBack(msg: bytes, i: nat, e: Entry, asked: nat)
    requires i > 0 && ValidEntry(msg, e, asked) && Fits(e)
    requires i + |RecordBytes(e)| <= |msg| && msg[i..i + |RecordBytes(e)|] == RecordBytes(e)
    ensures RecordAt(msg, i, e.record, i + |RecordBytes(e)|, asked) && |RecordBytes(e)| > 0
  {
    RecordParts(msg, i, e);
    DataShort(msg, e, asked);
    hide NameBytes, DataBytes, RecordBytes, FieldsAt, DataAt, ReadableAt, NameSize, Fits, Resolves;
    NameBack(msg, i, e.record.owner, e.owner, e.record.jumps);
    DataBack(msg, e, FieldsAt(msg, AfterName(msg, i, e.record.owner)), asked);
  }

  lemma DataShort(msg: bytes, e: Entry, asked: nat)
    requires ValidEntry(msg, e, asked) && Fits(e)
    ensures |DataBytes(e)| > 0 && Resolves(msg, e.record.owner, e.owner, e.record.jumps) && Printable(e.record)
  {
  }

  lemma FixedLength(e: Entry)
    requires Fits(e)
    ensures |FixedBytes(e)| == 10
  {
  }

  predicate AllValid(msg: bytes, es: seq<Entry>, asked: nat) {
    forall k :: 0 <= k < |es| ==> ValidEntry(msg, es[k], asked)
  }

  lemma AllValidStep(msg: bytes, es: seq<Entry>, asked: nat)
    requires AllValid(msg, es, asked) && es != []
    ensures ValidEntry(msg, es[0], asked) && Fits(es[0]) && AllValid(msg, es[1..], asked)
    ensures RecordsBytes(es) == RecordBytes(es[0]) + RecordsBytes(es[1..])
  {
    ValidFits(msg, es[0], asked);
  }

  lemma {:induction false} RecordsBack(msg: bytes, i: nat, es: seq<Entry>, asked: nat, more: bytes)
    requires i > 0 && AllValid(msg, es, asked)
    requires i <= |msg| && msg[i..] == RecordsBytes(es) + more
    ensures RecordsAt(msg, i, Records(es), Ends(es, i), asked, |msg| - |more|)
    decreases |es|
  {
    hide RecordBytes, RecordAt, ValidEntry, Fits, RecordsBytes, AllValid, RecordsAt, Records, Ends;
    if es == [] {
      NoRecords(msg, i, asked, more);
    } else {
      AllValidStep(msg, es, asked);
      var e, rest := es[0], es[1..];
      var n := |RecordBytes(e)|;
      Seqs.Join(RecordBytes(e), RecordsBytes(rest), more);
      TailOf(msg, i, RecordBytes(e), RecordsBytes(rest) + more);
      RecordBack(msg, i, e, asked);
      RecordsBack(msg, i + n, rest, asked, more);
      RecordsStep(msg, i, es, asked, |msg| - |more|);
    }
  }

  lemma NoRecords(msg: bytes, i: nat, asked: nat, more: bytes)
    requires i <= |msg| && msg[i..] == RecordsBytes([]) + more
    ensures RecordsAt(msg, i, Records([]), Ends([], i), asked, |msg| - |more|)
  {
  }

  lemma RecordsStep(msg: bytes, i: nat, es: seq<Entry>, asked: nat, stop: nat)
    requires AllValid(msg, es, asked) && es != []
    requires var next := i + |RecordBytes(es[0])|;
             && i < next && RecordAt(msg, i, es[0].record, next, asked)
             && RecordsAt(msg, next, Records(es[1..]), Ends(es[1..], next), asked, stop)
    ensures RecordsAt(msg, i, Records(es), Ends(es, i), asked, stop)
  {
    hide RecordBytes, RecordAt, ValidEntry, Fits;
    var next := i + |RecordBytes(es[0])|;
    var rs, ends := Records(es[1..]), Ends(es[1..], next);
    assert ([es[0].record] + rs)[1..] == rs && ([next] + ends)[1..] == ends;
  }

  lemma TailOf(msg: bytes, i: nat, a: bytes, b: bytes)
    requires i <= |msg| && msg[i..] == a + b
    ensures i + |a| <= |msg| && msg[i..i + |a|] == a && msg[i + |a|..] == b
  {
    assert msg[i..i + |a|] == msg[i..][..|a|];
    assert msg[i + |a|..] == msg[i..][|a|..];
  }

  // ---------- whole messages ----------

  function EncodeMessage(header: bytes, question: seq<bytes>, tail: bytes, es: seq<Entry>): bytes
    requires AreLabels(question)
  {
    header + WireName(question) + tail + RecordsBytes(es)
  }

  /** A message that can be written: a response header, a question, at least one record,
      and every name in a form that resolves in the message itself. */
  predicate ValidMessage(header: bytes, question: seq<bytes>, tail: bytes, es: seq<Entry>, asked: nat) {
    && |header| == 12 && ResponseHeader(header) && |tail| == 4 && es != []
    && question != [] && AreLabels(question) && |FullName(question)| <= MAX_NAME
    && AllValid(EncodeMessage(header, question, tail, es), es, asked)
  }

  lemma HeaderPart(header: bytes, rest: bytes)
    requires |header| == HEADER && ResponseHeader(header)
    ensures ResponseHeader(header + rest)
  {
    assert (header + rest)[2] == header[2] && (header + rest)[3] == header[3];
  }

  lemma EncodedWellFormed(header: bytes, question: seq<bytes>, tail: bytes, es: seq<Entry>, asked: nat)
    requires ValidMessage(header, question, tail, es, asked)
    ensures WellFormedMessage(EncodeMessage(header, question, tail, es), question, 0, Records(es),
                              Ends(es, HEADER + |WireName(question)| + 4), asked)
  {
    hide WireName, RecordsBytes, FullName, AllValid, RecordsAt, Records, Ends, AreLabels, ResponseHeader, ReadableAt, NameSize;
    var msg := EncodeMessage(header, question, tail, es);
    var w := WireName(question);
    var i := HEADER + |w| + 4;
    SomeRecords(es);
    FourParts(header, w, tail, RecordsBytes(es));
    HeaderPart(header, w + tail + RecordsBytes(es));
    SpelledBack(msg, HEADER, question, w);
    assert RecordsBytes(es) + [] == RecordsBytes(es);
    RecordsBack(msg, i, es, asked, []);
  }

  /** The OPT record of section 6.1.2 of RFC 6891, with nothing in it: owned by the root, and
      its class is a size. */
  const OPT: bytes := [0, 0, 41, 16, 0, 0, 0, 0, 0, 0, 0]

  /** Any such message with an OPT record at its end. */
  function WithOpt(header: bytes, question: seq<bytes>, tail: bytes, es: seq<Entry>): bytes
    requires AreLabels(question)
  {
    EncodeMessage(header, question, tail, es) + OPT
  }

  lemma OptRootOwned(header: bytes, question: seq<bytes>, tail: bytes, es: seq<Entry>, asked: nat)
    requires |header| == HEADER && ResponseHeader(header) && |tail| == 4
    requires question != [] && AreLabels(question) && |FullName(question)| <= MAX_NAME
    requires AllValid(WithOpt(header, question, tail, es), es, asked)
    ensures var msg := WithOpt(header, question, tail, es);
            StopsBadly(msg, question, 0, Records(es), Ends(es, HEADER + |WireName(question)| + 4), asked, |msg| - |OPT|, Owner([], 0))
  {
    hide WireName, RecordsBytes, FullName, AllValid, RecordsAt, Records, Ends, AreLabels, ResponseHeader, ReadableAt, NameSize;
    var msg, w, rs := WithOpt(header, question, tail, es), WireName(question), RecordsBytes(es);
    var i := HEADER + |w| + 4;
    assert msg == header + w + tail + (rs + OPT);
    FourParts(header, w, tail, rs + OPT);
    HeaderPart(header, w + tail + (rs + OPT));
    SpelledBack(msg, HEADER, question, w);
    RecordsBack(msg, i, es, asked, OPT);
    OptThere(header + w + tail + rs, msg);
  }

  lemma OptThere(before: bytes, msg: bytes)
    requires msg == before + OPT
    ensures RootOwner(msg, |before|)
  {
  }

  lemma SomeRecords(es: seq<Entry>)
    requires es != []
    ensures Records(es) != []
  {
  }

  lemma FourParts(a: bytes, b: bytes, c: bytes, d: bytes)
    ensures var s := a + b + c + d;
            && s[|a|..|a| + |b|] == b && s[|a| + |b| + |c|..] == d
            && s == a + (b + c + d) && |s| == |a| + |b| + |c| + |d|
  {
  }

  /** What is written is read back: the aliases and the addresses of the question's name, in
      order and numbered from 0, and whether there was such an address. */
  method EncodeThenParse(name: bytes, header: bytes, question: seq<bytes>, tail: bytes, es: seq<Entry>, asked: nat)
    returns (ret: int, result: map<nat, Answer>)
    requires ValidMessage(header, question, tail, es, asked)
    requires Lower(name + [DOT]) == Lower(FullName(question))
    ensures ret == if HasAnswer(Records(es), question) then 1 else 0
    ensures result == Numbered(map[], Kept(Records(es), question))
  {
    hide AllValid, ResponseHeader, AreLabels, EncodeMessage, Kept, HasAnswer, Numbered, Lower, FullName, Records, Ends, WireName;
    var msg := EncodeMessage(header, question, tail, es);
    EncodedWellFormed(header, question, tail, es, asked);
    var reply := DnsBody.Text(msg);
    DnsBody.OctetsOfText(msg);
    assert reply[0..] == reply;
    KnownLength(reply, Some(0), |msg|);
    ret, result := ParseRfc8484(name, asked, reply, Some(0), |msg|, map[], question, 0,
                                Records(es), Ends(es, HEADER + |WireName(question)| + 4), 0, Owner([], 0));
  }

  /** The same when the message comes in chunks behind any head. */
  method ChunkedThenParse(name: bytes, header: bytes, question: seq<bytes>, tail: bytes, es: seq<Entry>, asked: nat,
                          head: string, chunks: seq<DnsBody.Chunk>, last: DnsBody.Size, after: string)
    returns (ret: int, result: map<nat, Answer>)
    requires ValidMessage(header, question, tail, es, asked)
    requires Lower(name + [DOT]) == Lower(FullName(question))
    requires DnsBody.ValidChunks(chunks, last) && DnsBody.Small(chunks)
    requires DnsBody.Octets(DnsBody.Data(chunks)) == EncodeMessage(header, question, tail, es)
    requires Strings.Find(head + DnsBody.HEAD_END + DnsBody.Encode(chunks, last, after), DnsBody.HEAD_END) == Some(|head|)
    ensures ret == if HasAnswer(Records(es), question) then 1 else 0
    ensures result == Numbered(map[], Kept(Records(es), question))
  {
    hide AllValid, ResponseHeader, AreLabels, EncodeMessage, Kept, HasAnswer, Numbered, Lower, FullName, Records, Ends, WireName;
    hide Strings.Find, DnsBody.Encode, DnsBody.Data, DnsBody.ValidChunks, DnsBody.Small;
    EncodedWellFormed(header, question, tail, es, asked);
    DnsBody.ReplyExactly(head, chunks, last, after, None, 0);
    ret, result := ParseRfc8484(name, asked, head + DnsBody.HEAD_END + DnsBody.Encode(chunks, last, after), None, 0, map[],
                                question, 0, Records(es), Ends(es, HEADER + |WireName(question)| + 4), 0, Owner([], 0));
  }

  /** Servers that add an OPT record to their answers are not understood: whatever the answers,
      the reply is refused. */
  method OptRefused(name: bytes, header: bytes, question: seq<bytes>, tail: bytes, es: seq<Entry>, asked: nat)
    returns (ret: int, result: map<nat, Answer>)
    requires |header| == HEADER && ResponseHeader(header) && |tail| == 4
    requires question != [] && AreLabels(question) && |FullName(question)| <= MAX_NAME
    requires AllValid(WithOpt(header, question, tail, es), es, asked)
    ensures ret == -1
  {
    hide AllValid, ResponseHeader, AreLabels, EncodeMessage, FullName, Records, Ends, WireName, WithOpt;
    var msg := WithOpt(header, question, tail, es);
    OptRootOwned(header, question, tail, es, asked);
    var reply := DnsBody.Text(msg);
    DnsBody.OctetsOfText(msg);
    assert reply[0..] == reply;
    KnownLength(reply, Some(0), |msg|);
    ret, result := ParseRfc8484(name, asked, reply, Some(0), |msg|, map[], question, 0,
                                Records(es), Ends(es, HEADER + |WireName(question)| + 4), |msg| - |OPT|, Owner([], 0));
  }
}
