/** dnshttps::parse_rfc8484: the answers of a DNS message, sections 4.1.1 to 4.1.3 of
    RFC 1035, as carried by RFC 8484. */
module DnsMessage {
  import Seqs
  import opened Wrappers
  import opened Bytes
  import opened DnsName
  import opened QName
  import opened DnsBody

  const HEADER := 12
  const A := 1
  const NS := 2
  const CNAME := 5
  const MX := 15
  const AAAA := 28
  const CLASS_IN := 1

  datatype Answer = Answer(name: bytes, qtype: nat, qclass: nat, ttl: nat, rdata: bytes)

  /** Fields are sent with the high byte first. */
  function U16(msg: bytes, i: nat): nat
    requires i + 2 <= |msg|
  {
    msg[i] as int * 256 + msg[i + 1]
  }

  function U32(msg: bytes, i: nat): nat
    requires i + 4 <= |msg|
  {
    U16(msg, i) * 0x1_0000 + U16(msg, i + 2)
  }

  function LowerByte(b: byte): byte {
    if 65 <= b <= 90 then b + 32 else b
  }

  function Lower(s: bytes): (r: bytes)
    ensures |r| == |s|
  {
    if s == [] then [] else [LowerByte(s[0])] + Lower(s[1..])
  }

  function Decimal(n: nat): bytes {
    if n < 10 then [48 + n] else Decimal(n / 10) + [48 + n % 10]
  }

  /** The dotted form of an address. */
  function Dotted(a: bytes): bytes
    requires |a| == 4
  {
    Decimal(a[0]) + [DOT] + Decimal(a[1]) + [DOT] + Decimal(a[2]) + [DOT] + Decimal(a[3])
  }

  function WithoutLastDot(s: bytes): bytes {
    if s != [] && s[|s| - 1] == DOT then s[..|s| - 1] else s
  }

  lemma EndsWithDot(s: bytes)
    requires s == [] || s[|s| - 1] == DOT
    ensures LastPiece(s) == []
    decreases |s|
  {
    if s != [] {
      var k := FindDot(s).value;
      if k + 1 < |s| { assert s[k + 1..][|s| - k - 2] == DOT; }
      EndsWithDot(s[k + 1..]);
    }
  }

  /** One record after its owner name: the fixed fields, and where its data ends. */
  datatype Fields = Fields(qtype: nat, qclass: nat, ttl: nat, data: nat, rdlen: nat)

  function FieldsAt(msg: bytes, i: nat): Fields
    requires i + 10 <= |msg|
  {
    Fields(U16(msg, i), U16(msg, i + 2), U32(msg, i + 4), i + 10, U16(msg, i + 8))
  }

  /** What one record adds: an answer, nothing, or a refusal of the whole message. */
  datatype Verdict = Keep(answer: Answer, isAnswer: bool) | Skip | Refuse

  method JudgeRecord(msg: bytes, aname: bytes, f: Fields, fqdn: bytes, asked: nat) returns (v: Verdict)
    requires f.data + f.rdlen <= |msg| && f.rdlen > 0
    ensures v == Judge(msg, aname, f, fqdn, asked)
  {
    var owner := WithoutLastDot(aname);
    if f.qtype == A && Lower(aname) == fqdn {
      if f.rdlen != 4 {
        return Refuse;
      }
      return Keep(Answer(owner, f.qtype, f.qclass, f.ttl, Dotted(msg[f.data..f.data + 4])), true);
    } else if f.qtype == AAAA && Lower(aname) == fqdn {
      if f.rdlen != 16 {
        return Refuse;
      }
      return Keep(Answer(owner, f.qtype, f.qclass, f.ttl, msg[f.data..f.data + 16]), true);
    } else if f.qtype == CNAME {
      var n, cname := QName2Host(msg, f.data);
      if n <= 0 {
        return Refuse;
      }
      DecodeResult(msg, f.data);
      EndsWithDot(cname);
      SplitCountable(cname);
      var m, qcname, forever := Host2QName(cname);
      if m <= 0 {
        return Refuse;
      }
      return Keep(Answer(owner, f.qtype, f.qclass, f.ttl, qcname), false);
    } else if (f.qtype == NS || f.qtype == MX) && f.qtype == asked {
      return Keep(Answer(owner, f.qtype, f.qclass, f.ttl, msg[f.data..f.data + f.rdlen]), true);
    }
    return Skip;
  }

  /** host2qname as a function of names that end with a dot. */
  function Encoded(name: bytes): Option<bytes>
    requires name == [] || name[|name| - 1] == DOT
  {
    EndsWithDot(name);
    SplitCountable(name);
    if |SplitHost(name)| >= SPLIT_LIMIT then None else Some(Wire(UpToNul(SplitHost(name))))
  }

  function Judge(msg: bytes, aname: bytes, f: Fields, fqdn: bytes, asked: nat): Verdict
    requires f.data + f.rdlen <= |msg| && f.rdlen > 0
  {
    var owner := WithoutLastDot(aname);
    if f.qtype == A && Lower(aname) == fqdn then
      if f.rdlen != 4 then Refuse
      else Keep(Answer(owner, A, f.qclass, f.ttl, Dotted(msg[f.data..f.data + 4])), true)
    else if f.qtype == AAAA && Lower(aname) == fqdn then
      if f.rdlen != 16 then Refuse
      else Keep(Answer(owner, AAAA, f.qclass, f.ttl, msg[f.data..f.data + 16]), true)
    else if f.qtype == CNAME then
      var d := Decode(msg, f.data);
      DecodeResult(msg, f.data);
      if d.ret <= 0 || Encoded(d.name) == None then Refuse
      else Keep(Answer(owner, CNAME, f.qclass, f.ttl, Encoded(d.name).value), false)
    else if (f.qtype == NS || f.qtype == MX) && f.qtype == asked then
      Keep(Answer(owner, f.qtype, f.qclass, f.ttl, msg[f.data..f.data + f.rdlen]), true)
    else Skip
  }

  // ---------- records, as section 4.1.3 of RFC 1035 lays them out ----------

  datatype RData =
    | Address(a: bytes)
    | LongAddress(a: bytes)
    | Alias(target: seq<bytes>, targetJumps: nat)
    | AskedFor(rtype: nat, data: bytes)
    | Other(rtype: nat, data: bytes)

  /** A record of class IN; `jumps` counts the pointers its owner's name goes through. */
  datatype Record = Record(owner: seq<bytes>, jumps: nat, ttl: nat, data: RData)

  function TypeOf(d: RData): nat {
    match d
    case Address(_) => A
    case LongAddress(_) => AAAA
    case AskedFor(t, _) => t
    case Alias(_, _) => CNAME
    case Other(t, _) => t
  }

  /** A name of the message that qname2host can return. */
  predicate ReadableAt(msg: bytes, i: nat, labels: seq<bytes>, jumps: nat) {
    labels != [] && NameAt(msg, i, labels, jumps) && jumps <= MAX_JUMPS && |FullName(labels)| <= MAX_NAME
  }

  predicate DataAt(msg: bytes, f: Fields, d: RData, asked: nat)
    requires f.data + f.rdlen <= |msg|
  {
    match d
    case Address(a) => f.rdlen == 4 && a == msg[f.data..f.data + 4]
    case LongAddress(a) => f.rdlen == 16 && a == msg[f.data..f.data + 16]
    case AskedFor(t, data) => (t == NS || t == MX) && t == asked && data == msg[f.data..f.data + f.rdlen]
    case Alias(target, jumps) => ReadableAt(msg, f.data, target, jumps)
    case Other(t, data) =>
      && t != A && t != AAAA && t != CNAME && ((t == NS || t == MX) ==> t != asked)
      && data == msg[f.data..f.data + f.rdlen]
  }

  /** Addresses have four bytes or sixteen, alias targets are names. */
  predicate Printable(r: Record) {
    && (r.data.Address? ==> |r.data.a| == 4) && (r.data.LongAddress? ==> |r.data.a| == 16)
    && (r.data.Alias? ==> AreLabels(r.data.target))
    && (r.data.AskedFor? ==> r.data.rtype == NS || r.data.rtype == MX)
  }

  function AfterName(msg: bytes, i: nat, labels: seq<bytes>): nat {
    i + NameSize(msg, i, labels)
  }

  /** The record stands at `i` and ends before `next`. */
  predicate RecordAt(msg: bytes, i: nat, r: Record, next: nat, asked: nat) {
    && i > 0 && ReadableAt(msg, i, r.owner, r.jumps) && Printable(r)
    && var j := AfterName(msg, i, r.owner);
       && j + 10 < |msg|
       && var f := FieldsAt(msg, j);
          && f.qtype == TypeOf(r.data) && f.qclass == CLASS_IN && f.ttl == r.ttl && f.rdlen > 0
          && next == f.data + f.rdlen <= |msg|
          && DataAt(msg, f, r.data, asked)
  }

  /** The records stand one after the other from `i` to `stop`. */
  predicate RecordsAt(msg: bytes, i: nat, rs: seq<Record>, ends: seq<nat>, asked: nat, stop: nat)
    decreases |rs|
  {
    |ends| == |rs| &&
    if rs == [] then i == stop
    else i < ends[0] && RecordAt(msg, i, rs[0], ends[0], asked) && RecordsAt(msg, ends[0], rs[1..], ends[1..], asked, stop)
  }

  /** A record whose owner is the root, and of a type that is not a multiple of 256. Among them
      is the OPT record of section 6.1.2 of RFC 6891. */
  predicate RootOwner(msg: bytes, i: nat) {
    i < |msg| && msg[i] == 0 && (i + 2 < |msg| ==> msg[i + 2] != 0)
  }

  /** Whose a record is: labels, and through how many pointers. */
  datatype Owner = Owner(labels: seq<bytes>, jumps: nat)

  /** A record the whole message is refused for: owned by the root; cut off, of another class or
      without data; an address of the question's name that has not the size of one; an alias of
      something that is no name. */
  predicate BadRecord(msg: bytes, i: nat, owner: Owner, question: seq<bytes>) {
    || RootOwner(msg, i)
    || (&& i > 0 && ReadableAt(msg, i, owner.labels, owner.jumps)
        && var j := AfterName(msg, i, owner.labels);
           || j + 10 >= |msg|
           || (var f := FieldsAt(msg, j);
               || f.data + f.rdlen > |msg| || f.qclass != 1 || f.rdlen == 0
               || (f.qtype == 1 && SameName(owner.labels, question) && f.rdlen != 4)
               || (f.qtype == 28 && SameName(owner.labels, question) && f.rdlen != 16)
               || (f.qtype == 5 && Decode(msg, f.data).ret <= 0)))
  }

  // ---------- what should come out ----------

  predicate SameName(a: seq<bytes>, b: seq<bytes>) {
    Lower(FullName(a)) == Lower(FullName(b))
  }

  predicate IsAnyAddress(d: RData) { d.Address? || d.LongAddress? }

  /** An address of the question's name, an alias of any, or a record of the type asked for. */
  predicate Wanted(r: Record, question: seq<bytes>) {
    Printable(r) && (r.data.Alias? || r.data.AskedFor? || (IsAnyAddress(r.data) && SameName(r.owner, question)))
  }

  function AnswerOf(r: Record): Answer
    requires !r.data.Other? && Printable(r)
  {
    Answer(HostOf(r.owner), TypeOf(r.data), CLASS_IN, r.ttl,
           match r.data
           case Address(a) => Dotted(a)
           case LongAddress(a) => a
           case Alias(target, _) => WireName(target)
           case AskedFor(_, data) => data)
  }

  function Kept(rs: seq<Record>, question: seq<bytes>): seq<Answer> {
    if rs == [] then []
    else (if Wanted(rs[0], question) then [AnswerOf(rs[0])] else []) + Kept(rs[1..], question)
  }

  predicate HasAnswer(rs: seq<Record>, question: seq<bytes>) {
    exists i :: 0 <= i < |rs| && !rs[i].data.Alias? && Wanted(rs[i], question)
  }

  /** Answers stored under 0, 1, 2 and so on. */
  function Numbered(m: map<nat, Answer>, answers: seq<Answer>): map<nat, Answer> {
    if answers == [] then m
    else Numbered(m, answers[..|answers| - 1])[|answers| - 1 := answers[|answers| - 1]]
  }

  lemma {:induction false} NumberedAt(m: map<nat, Answer>, answers: seq<Answer>, i: nat)
    ensures i < |answers| ==> i in Numbered(m, answers) && Numbered(m, answers)[i] == answers[i]
    ensures i >= |answers| ==> (i in Numbered(m, answers) <==> i in m)
    ensures i >= |answers| && i in m ==> Numbered(m, answers)[i] == m[i]
  {
    if answers != [] {
      NumberedAt(m, answers[..|answers| - 1], i);
    }
  }

  // ---------- reading a record of a well-formed message ----------

  lemma FullNameShape(labels: seq<bytes>)
    requires labels != []
    ensures FullName(labels) != [] && FullName(labels)[|FullName(labels)| - 1] == DOT
    ensures WithoutLastDot(FullName(labels)) == HostOf(labels)
  {
    HostThenDot(labels);
  }

  lemma NameLabels(msg: bytes, i: nat, labels: seq<bytes>, jumps: nat)
    requires NameAt(msg, i, labels, jumps)
    ensures AreLabels(labels)
    decreases jumps, |labels|
  {
    if msg[i] == JUMP_MARK {
      NameLabels(msg, msg[i + 1], labels, jumps - 1);
    } else if labels != [] {
      NameLabels(msg, i + 1 + |labels[0]|, labels[1..], jumps);
    }
  }

  lemma EncodedName(labels: seq<bytes>)
    requires labels != [] && AreLabels(labels) && |FullName(labels)| <= MAX_NAME
    ensures FullName(labels)[|FullName(labels)| - 1] == DOT
    ensures Encoded(FullName(labels)) == Some(WireName(labels))
    ensures Countable(UpToNul(SplitHost(FullName(labels)))) && Wire(UpToNul(SplitHost(FullName(labels)))) == WireName(labels)
    ensures |SplitHost(FullName(labels))| < SPLIT_LIMIT
  {
    FullNameShape(labels);
    EncodesLabels(labels, FullName(labels));
  }

  lemma ReadName(msg: bytes, i: nat, labels: seq<bytes>, jumps: nat)
    requires ReadableAt(msg, i, labels, jumps) && i > 0
    ensures i <= |msg| && Decode(msg, i) == NameResult(NameSize(msg, i, labels), FullName(labels))
    ensures AreLabels(labels)
  {
    DecodeName(msg, i, labels, jumps);
    NameLabels(msg, i, labels, jumps);
  }

  lemma JudgeOfRecord(msg: bytes, i: nat, r: Record, next: nat, asked: nat, question: seq<bytes>)
    requires RecordAt(msg, i, r, next, asked)
    ensures var f := FieldsAt(msg, AfterName(msg, i, r.owner));
            && f.data + f.rdlen <= |msg| && f.rdlen > 0
            && Judge(msg, FullName(r.owner), f, Lower(FullName(question)), asked)
               == if Wanted(r, question) then Keep(AnswerOf(r), !r.data.Alias?) else Skip
  {
    hide Judge, DataAt, FullName, Lower, Wanted, AnswerOf, NameAt, NameSize, Printable;
    FullNameShape(r.owner);
    JudgeData(msg, r, FieldsAt(msg, AfterName(msg, i, r.owner)), asked, question);
  }

  lemma JudgeData(msg: bytes, r: Record, f: Fields, asked: nat, question: seq<bytes>)
    requires f.data + f.rdlen <= |msg| && f.rdlen > 0 && f.data > 0 && f.qtype == TypeOf(r.data) && f.qclass == CLASS_IN && f.ttl == r.ttl
    requires DataAt(msg, f, r.data, asked) && Printable(r) && WithoutLastDot(FullName(r.owner)) == HostOf(r.owner)
    ensures Judge(msg, FullName(r.owner), f, Lower(FullName(question)), asked)
            == if Wanted(r, question) then Keep(AnswerOf(r), !r.data.Alias?) else Skip
  {
    hide Decode, Encoded, FullName, Lower, Dotted, WireName, HostOf, NameAt, WithoutLastDot, AreLabels;
    if r.data.Alias? {
      ReadName(msg, f.data, r.data.target, r.data.targetJumps);
      EncodedName(r.data.target);
    }
  }

  // ---------- parse_rfc8484 ----------

  /** One pass of the answer loop: what the record at `idx` adds, and where the next begins. */
  method ParseRecord(msg: bytes, idx0: nat, fqdn: bytes, asked: nat,
                     ghost r: Record, ghost end: nat, ghost question: seq<bytes>, ghost bad: Owner)
    returns (v: Verdict, next: nat)
    requires idx0 <= |msg|
    ensures !v.Refuse? ==> idx0 + 11 <= next <= |msg|
    ensures RecordAt(msg, idx0, r, end, asked) && fqdn == Lower(FullName(question)) ==>
              next == end && v == if Wanted(r, question) then Keep(AnswerOf(r), !r.data.Alias?) else Skip
    ensures BadRecord(msg, idx0, bad, question) && fqdn == Lower(FullName(question)) ==> v.Refuse?
    ensures RootOwner(msg, idx0) ==> v.Refuse?
  {
    hide Decode, FullName, Judge, SplitHost, UpToNul, Wire, Countable, LastPiece, NameAt, NameSize, HostOf, Lower;
    hide Wanted, AnswerOf, DataAt, BadRecord, RootOwner;
    BadFacts(msg, idx0, bad, question, asked);
    if RecordAt(msg, idx0, r, end, asked) {
      ReadName(msg, idx0, r.owner, r.jumps);
      EncodedName(r.owner);
      JudgeOfRecord(msg, idx0, r, end, asked, question);
    }
    RootName(msg, idx0);
    var idx := idx0;
    next := idx0;
    var qnlen, aname := QName2Host(msg, idx);
    DecodeResult(msg, idx);
    if qnlen < 0 {
      return Refuse, next;
    }
    if idx + qnlen + 10 >= |msg| {
      return Refuse, next;
    }
    idx := idx + qnlen;
    var f := FieldsAt(msg, idx);
    idx := idx + 10;
    if idx + f.rdlen > |msg| || f.qclass != CLASS_IN || f.rdlen == 0 {
      return Refuse, next;
    }
    EndsWithDot(aname);
    SplitCountable(aname);
    var n, qname, forever := Host2QName(aname);
    if n <= 0 {
      return Refuse, next;
    }
    v := JudgeRecord(msg, aname, f, fqdn, asked);
    next := idx + f.rdlen;
  }

  lemma BadFacts(msg: bytes, i: nat, bad: Owner, question: seq<bytes>, asked: nat)
    ensures BadRecord(msg, i, bad, question) && !RootOwner(msg, i) ==>
              && i <= |msg| && Decode(msg, i) == NameResult(NameSize(msg, i, bad.labels), FullName(bad.labels))
              && var j := i + NameSize(msg, i, bad.labels);
                 || j + 10 >= |msg|
                 || (var f := FieldsAt(msg, j);
                     f.data + f.rdlen > |msg| || f.qclass != CLASS_IN || f.rdlen == 0
                     || Judge(msg, FullName(bad.labels), f, Lower(FullName(question)), asked).Refuse?)
  {
    hide Decode, FullName, SplitHost, UpToNul, Wire, Countable, LastPiece, NameAt, NameSize, Lower, RootOwner;
    if BadRecord(msg, i, bad, question) && !RootOwner(msg, i) {
      ReadName(msg, i, bad.labels, bad.jumps);
    }
  }

  /** The root is read as a name without bytes, so the fields are read one byte too early, and
      the class is not the internet's. */
  lemma RootName(msg: bytes, i: nat)
    requires i <= |msg|
    ensures RootOwner(msg, i) ==> Decode(msg, i).ret == 0 && (i + 10 < |msg| ==> FieldsAt(msg, i).qclass != CLASS_IN)
  {
  }

  lemma KeptStep(rs: seq<Record>, question: seq<bytes>, kept: seq<Answer>)
    requires rs != []
    ensures kept + Kept(rs, question)
            == (if Wanted(rs[0], question) then kept + [AnswerOf(rs[0])] else kept) + Kept(rs[1..], question)
    ensures HasAnswer(rs, question)
            <==> (Wanted(rs[0], question) && !rs[0].data.Alias?) || HasAnswer(rs[1..], question)
  {
    hide AnswerOf, HasAnswer, Kept;
    KeptFirst(rs, question);
    AnswerStep(rs, question);
    Seqs.Join(kept, if Wanted(rs[0], question) then [AnswerOf(rs[0])] else [], Kept(rs[1..], question));
    assert kept + [] == kept;
  }

  lemma KeptFirst(rs: seq<Record>, question: seq<bytes>)
    requires rs != []
    ensures Kept(rs, question) == (if Wanted(rs[0], question) then [AnswerOf(rs[0])] else []) + Kept(rs[1..], question)
  {
    hide Wanted, AnswerOf;
  }

  lemma AnswerStep(rs: seq<Record>, question: seq<bytes>)
    requires rs != []
    ensures HasAnswer(rs, question) <==> (Wanted(rs[0], question) && !rs[0].data.Alias?) || HasAnswer(rs[1..], question)
  {
    hide Wanted;
    if HasAnswer(rs, question) && !(Wanted(rs[0], question) && !rs[0].data.Alias?) {
      var i :| 0 <= i < |rs| && !rs[i].data.Alias? && Wanted(rs[i], question);
      assert rs[1..][i - 1] == rs[i];
    }
    if HasAnswer(rs[1..], question) {
      var i :| 0 <= i < |rs[1..]| && !rs[1..][i].data.Alias? && Wanted(rs[1..][i], question);
      assert rs[i + 1] == rs[1..][i];
    }
  }

  lemma NumberedNext(m: map<nat, Answer>, answers: seq<Answer>, a: Answer)
    ensures Numbered(m, answers + [a]) == Numbered(m, answers)[|answers| := a]
  {
    assert (answers + [a])[..|answers|] == answers;
  }

  /** The answer section of a message whose question names `fqdn`: the loop over its records. */
  method ParseRecords(msg: bytes, idx0: nat, fqdn: bytes, asked: nat, result0: map<nat, Answer>,
                      ghost rs: seq<Record>, ghost ends: seq<nat>, ghost question: seq<bytes>, ghost stop: nat, ghost bad: Owner)
    returns (ret: int, result: map<nat, Answer>)
    requires idx0 <= |msg|
    ensures ret == -1 || ret == 0 || ret == 1
    ensures RecordsAt(msg, idx0, rs, ends, asked, stop) && fqdn == Lower(FullName(question)) ==>
              && (stop == |msg| ==>
                    && ret == (if HasAnswer(rs, question) then 1 else 0)
                    && result == Numbered(result0, Kept(rs, question)))
              && (stop < |msg| && BadRecord(msg, stop, bad, question) ==> ret == -1)
  {
    hide BadRecord, FullName, Lower, RecordAt, Wanted, AnswerOf, HasAnswer, Kept, Numbered;
    var idx: nat, acnt: nat, hasAnswer := idx0, 0, false;
    result := result0;
    ghost var ahead := RecordsAt(msg, idx0, rs, ends, asked, stop) && fqdn == Lower(FullName(question))
                        && (stop == |msg| || (stop < |msg| && BadRecord(msg, stop, bad, question)));
    ghost var left, leftEnds := rs, ends;
    ghost var kept: seq<Answer> := [];
    NothingKept(result0, question);
    while idx < |msg|
      invariant idx <= |msg| && acnt == |kept| && result == Numbered(result0, kept)
      invariant ahead ==> RecordsAt(msg, idx, left, leftEnds, asked, stop)
      invariant ahead ==> kept + Kept(left, question) == Kept(rs, question)
      invariant ahead ==> (HasAnswer(rs, question) <==> hasAnswer || HasAnswer(left, question))
      decreases |msg| - idx
    {
      ghost var r := if left == [] then Record([], 0, 0, Other(0, [])) else left[0];
      ghost var end := if leftEnds == [] then 0 else leftEnds[0];
      if ahead {
        RecordsInside(msg, idx, left, leftEnds, asked, stop);
        if left != [] { KeptStep(left, question, kept); }
      }
      var v, next := ParseRecord(msg, idx, fqdn, asked, r, end, question, bad);
      if v.Refuse? {
        return -1, result;
      }
      if v.Keep? {
        NumberedNext(result0, kept, v.answer);
        result := result[acnt := v.answer];
        acnt := acnt + 1;
        hasAnswer := hasAnswer || v.isAnswer;
        kept := kept + [v.answer];
      }
      idx := next;
      left := if left == [] then [] else left[1..];
      leftEnds := if leftEnds == [] then [] else leftEnds[1..];
    }
    if ahead { RecordsInside(msg, idx, left, leftEnds, asked, stop); }
    ret := if hasAnswer then 1 else 0;
    assert kept + [] == kept;
  }

  lemma RecordsInside(msg: bytes, i: nat, rs: seq<Record>, ends: seq<nat>, asked: nat, stop: nat)
    requires RecordsAt(msg, i, rs, ends, asked, stop)
    ensures i <= stop && (i == stop <==> rs == [])
    decreases |rs|
  {
    hide RecordAt;
    if rs != [] { RecordsInside(msg, ends[0], rs[1..], ends[1..], asked, stop); }
  }

  lemma OneStop(msg: bytes, i: nat, rs: seq<Record>, ends: seq<nat>, asked: nat, a: nat, b: nat)
    requires RecordsAt(msg, i, rs, ends, asked, a) && RecordsAt(msg, i, rs, ends, asked, b)
    ensures a == b
    decreases |rs|
  {
    hide RecordAt;
    if rs != [] { OneStop(msg, ends[0], rs[1..], ends[1..], asked, a, b); }
  }

  lemma NothingKept(m: map<nat, Answer>, question: seq<bytes>)
    ensures Numbered(m, []) == m && Kept([], question) == [] && !HasAnswer([], question)
  {
  }

  /** The head of a reply: a response without an error. */
  predicate ResponseHeader(msg: bytes) {
    |msg| >= HEADER && msg[2] as int / 128 == 1 && msg[3] as int % 16 == 0
  }

  /** A response without an error to one question, and its records up to the end. */
  predicate WellFormedMessage(msg: bytes, question: seq<bytes>, jumps: nat, rs: seq<Record>, ends: seq<nat>, asked: nat) {
    && ResponseHeader(msg) && ReadableAt(msg, HEADER, question, jumps) && rs != []
    && RecordsAt(msg, AfterName(msg, HEADER, question) + 4, rs, ends, asked, |msg|)
  }

  /** The same up to a record it is refused for. */
  predicate StopsBadly(msg: bytes, question: seq<bytes>, jumps: nat, rs: seq<Record>, ends: seq<nat>, asked: nat, stop: nat, bad: Owner) {
    && ResponseHeader(msg) && ReadableAt(msg, HEADER, question, jumps) && stop < |msg| && BadRecord(msg, stop, bad, question)
    && RecordsAt(msg, AfterName(msg, HEADER, question) + 4, rs, ends, asked, stop)
  }

  /** The reply is to a question about another name. */
  predicate OtherName(msg: bytes, question: seq<bytes>, jumps: nat, name: bytes) {
    ReadableAt(msg, HEADER, question, jumps) && Lower(name + [DOT]) != Lower(FullName(question))
  }

  /** parse_rfc8484; `asked` is the type that was asked for, and npos is None. */
  method ParseRfc8484(name: bytes, asked: nat, reply: string, contentIdx: Option<nat>, cl: nat, result0: map<nat, Answer>,
                      ghost question: seq<bytes>, ghost jumps: nat, ghost rs: seq<Record>, ghost ends: seq<nat>, ghost stop: nat,
                      ghost bad: Owner)
    returns (ret: int, result: map<nat, Answer>)
    requires contentIdx.Some? ==> contentIdx.value <= |reply|
    ensures ret == -1 || ret == 0 || ret == 1
    ensures var body := BodyOf(reply, contentIdx, cl);
            && (ret >= 0 ==> body.Some? && ResponseHeader(Octets(body.value)))
            && (body.Some? && WellFormedMessage(Octets(body.value), question, jumps, rs, ends, asked)
                && Lower(name + [DOT]) == Lower(FullName(question)) ==>
                  && ret == (if HasAnswer(rs, question) then 1 else 0)
                  && result == Numbered(result0, Kept(rs, question)))
            && (body.Some? && OtherName(Octets(body.value), question, jumps, name) ==> ret == -1)
            && (body.None? ==> ret == -1)
            && (body.Some? && StopsBadly(Octets(body.value), question, jumps, rs, ends, asked, stop, bad) ==> ret == -1)
  {
    hide *;
    var body;
    if cl > 0 && contentIdx.Some? {
      KnownLength(reply, contentIdx, cl);
      var msg := reply[contentIdx.value..];
      if |msg| < cl {
        return -1, result0;
      }
      body := msg;
    } else {
      OfChunks(reply, contentIdx, cl);
      var msg := Reassemble(reply);
      if msg == None {
        return -1, result0;
      }
      body := msg.value;
    }
    ret, result := ParseMessage(name, asked, Octets(body), result0, question, jumps, rs, ends, stop, bad);
  }

  lemma KnownLength(reply: string, contentIdx: Option<nat>, cl: nat)
    requires cl > 0 && contentIdx.Some? && contentIdx.value <= |reply|
    ensures BodyOf(reply, contentIdx, cl)
            == if |reply[contentIdx.value..]| < cl then None else Some(reply[contentIdx.value..])
  {
  }

  lemma OfChunks(reply: string, contentIdx: Option<nat>, cl: nat)
    requires (contentIdx.Some? ==> contentIdx.value <= |reply|) && !(cl > 0 && contentIdx.Some?)
    ensures BodyOf(reply, contentIdx, cl) == FromChunks(reply)
  {
  }

  /** The message itself. */
  method ParseMessage(name: bytes, asked: nat, msg: bytes, result0: map<nat, Answer>,
                      ghost question: seq<bytes>, ghost jumps: nat, ghost rs: seq<Record>, ghost ends: seq<nat>, ghost stop: nat,
                      ghost bad: Owner)
    returns (ret: int, result: map<nat, Answer>)
    ensures ret == -1 || ret == 0 || ret == 1
    ensures ret >= 0 ==> ResponseHeader(msg)
    ensures WellFormedMessage(msg, question, jumps, rs, ends, asked) && Lower(name + [DOT]) == Lower(FullName(question)) ==>
              && ret == (if HasAnswer(rs, question) then 1 else 0)
              && result == Numbered(result0, Kept(rs, question))
    ensures OtherName(msg, question, jumps, name) ==> ret == -1
    ensures StopsBadly(msg, question, jumps, rs, ends, asked, stop, bad) ==> ret == -1
  {
    hide Decode, FullName, Lower, RecordAt, Wanted, AnswerOf, HasAnswer, Kept, Numbered, NameAt, NameSize, BadRecord;
    ghost var to := if WellFormedMessage(msg, question, jumps, rs, ends, asked) then |msg| else stop;
    result := result0;
    if ReadableAt(msg, HEADER, question, jumps) {
      ReadName(msg, HEADER, question, jumps);
      SizePositive(msg, HEADER, question);
      var i := AfterName(msg, HEADER, question) + 4;
      if RecordsAt(msg, i, rs, ends, asked, to) { RecordsInside(msg, i, rs, ends, asked, to); }
      if RecordsAt(msg, i, rs, ends, asked, to) && RecordsAt(msg, i, rs, ends, asked, stop) {
        OneStop(msg, i, rs, ends, asked, to, stop);
      }
    }
    if |msg| < HEADER + 5 {
      return -1, result;
    }
    if msg[2] as int / 128 != 1 {
      return -1, result;
    }
    if msg[3] as int % 16 != 0 {
      return -1, result;
    }
    var idx := HEADER;
    var qnlen, tmp := QName2Host(msg, idx);
    DecodeResult(msg, idx);
    if qnlen <= 0 || idx + qnlen + 4 >= |msg| {
      return -1, result;
    }
    var fqdn := Lower(tmp);
    if Lower(name + [DOT]) != fqdn {
      return -1, result;
    }
    idx := idx + qnlen + 4;
    ret, result := ParseRecords(msg, idx, fqdn, asked, result0, rs, ends, question, to, bad);
  }
}
