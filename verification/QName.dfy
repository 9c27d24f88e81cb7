/** qname2host of src/dns/dnshttps.cc: reading a name out of a message, with the compression
    of section 4.1.4 of RFC 1035. */
module QName {
  import Seqs
  import opened Wrappers
  import opened Bytes
  import opened DnsName

  const MAX_JUMPS := 10
  const MAX_NAME := 255
  // The first byte of a compressed name.
  const JUMP_MARK: byte := 192

  /** What qname2host returns, and the name it leaves in `result`. */
  datatype NameResult = NameResult(ret: int, name: bytes)

  const REFUSED := NameResult(-1, [])

  function Finish(s: bytes, r: nat): NameResult {
    if s == [] then NameResult(0, [])
    else if |s| > MAX_NAME then REFUSED
    else NameResult(r + 1, s)
  }

  /** The byte at `i`; at the end of the message, the zero after a std::string. */
  function ByteAt(msg: bytes, i: nat): byte
    requires i <= |msg|
  {
    if i < |msg| then msg[i] else 0
  }

  /** The rest of the loop of qname2host from a state of its variables. Any length byte over
      63 is a jump to the position in the byte after it. */
  function Scan(msg: bytes, start: nat, i: nat, r: nat, depth: nat, s: bytes): NameResult
    requires i <= |msg| && depth <= MAX_JUMPS
    decreases MAX_JUMPS - depth, |msg| - i
  {
    var len := ByteAt(msg, i);
    if len == 0 then Finish(s, r)
    else if len > MAX_LABEL then
      if start == 0 || depth + 1 > MAX_JUMPS then REFUSED
      else if i + 1 >= |msg| || msg[i + 1] >= |msg| then REFUSED
      else Scan(msg, start, msg[i + 1], if depth == 0 then r + 1 else r, depth + 1, s)
    else if len + i + 1 > |msg| then REFUSED
    else Scan(msg, start, i + len + 1, if depth == 0 then r + len + 1 else r, depth,
              s + msg[i + 1..i + 1 + len] + [DOT])
  }

  function Decode(msg: bytes, start: nat): NameResult
    requires start <= |msg|
  {
    Scan(msg, start, start, 0, 0, [])
  }

  /** The loop of qname2host. It ends on every message, pointer cycles included: each pass
      spends a jump, or keeps the jumps and moves on. */
  method QName2Host(msg: bytes, startIdx: nat) returns (ret: int, result: bytes)
    requires startIdx <= |msg|
    ensures NameResult(ret, result) == Decode(msg, startIdx)
  {
    var i: nat, r: nat, compressDepth: nat := startIdx, 0, 0;
    result := [];
    var s: bytes := [];
    var len := ByteAt(msg, i);
    while len != 0
      invariant i <= |msg| && compressDepth <= MAX_JUMPS && len == ByteAt(msg, i)
      invariant Scan(msg, startIdx, i, r, compressDepth, s) == Decode(msg, startIdx)
      decreases MAX_JUMPS - compressDepth, |msg| - i
    {
      if len > MAX_LABEL {
        if startIdx == 0 {
          return -1, [];
        }
        if compressDepth + 1 > MAX_JUMPS {
          return -1, [];
        }
        compressDepth := compressDepth + 1;
        if i + 1 >= |msg| {
          return -1, [];
        }
        i := msg[i + 1];
        if i >= |msg| {
          return -1, [];
        }
        if compressDepth <= 1 {
          r := r + 1;
        }
      } else {
        if len + i + 1 > |msg| {
          return -1, [];
        }
        s := s + msg[i + 1..i + 1 + len];
        s := s + [DOT];
        i := i + len + 1;
        if compressDepth == 0 {
          r := r + len + 1;
        }
      }
      len := ByteAt(msg, i);
    }
    result := s;
    if |result| == 0 {
      return 0, [];
    }
    if |result| > MAX_NAME {
      return -1, [];
    }
    return r + 1, result;
  }

  // ---------- what a successful result means ----------

  /** A result is positive exactly when it comes with a name, of at most 255 bytes, that
      ends with a dot; the bytes it counts lie in the message or are its closing zero. */
  predicate Sensible(msg: bytes, start: nat, d: NameResult) {
    && -1 <= d.ret && (d.ret <= 0 ==> d.name == [])
    && (d.ret > 0 ==> 0 < |d.name| <= MAX_NAME && d.name[|d.name| - 1] == DOT)
    && start + d.ret <= |msg| + 1
  }

  lemma {:induction false} ScanResult(msg: bytes, start: nat, i: nat, r: nat, depth: nat, s: bytes)
    requires i <= |msg| && depth <= MAX_JUMPS && start <= |msg|
    requires s == [] || s[|s| - 1] == DOT
    requires if depth == 0 then start + r == i else start + r + 1 <= |msg|
    requires depth == 0 && s == [] ==> r == 0
    ensures Sensible(msg, start, Scan(msg, start, i, r, depth, s))
    decreases MAX_JUMPS - depth, |msg| - i
  {
    hide Scan, Sensible;
    ScanStep(msg, start, i, r, depth, s);
    RefusedSensible(msg, start);
    var len := ByteAt(msg, i);
    if len == 0 {
      FinishSensible(msg, start, s, r);
    } else if len > MAX_LABEL {
      if start != 0 && depth + 1 <= MAX_JUMPS && i + 1 < |msg| && msg[i + 1] < |msg| {
        ScanResult(msg, start, msg[i + 1], if depth == 0 then r + 1 else r, depth + 1, s);
      }
    } else if len + i + 1 <= |msg| {
      ScanResult(msg, start, i + len + 1, if depth == 0 then r + len + 1 else r, depth,
                 s + msg[i + 1..i + 1 + len] + [DOT]);
    }
  }

  lemma FinishSensible(msg: bytes, start: nat, s: bytes, r: nat)
    requires (s == [] || s[|s| - 1] == DOT) && start + r <= |msg|
    ensures Sensible(msg, start, Finish(s, r))
  {
  }

  lemma RefusedSensible(msg: bytes, start: nat)
    requires start <= |msg|
    ensures Sensible(msg, start, REFUSED)
  {
  }

  lemma ScanStep(msg: bytes, start: nat, i: nat, r: nat, depth: nat, s: bytes)
    requires i <= |msg| && depth <= MAX_JUMPS
    ensures var len := ByteAt(msg, i);
            Scan(msg, start, i, r, depth, s)
            == if len == 0 then Finish(s, r)
               else if len > MAX_LABEL then
                 if start == 0 || depth + 1 > MAX_JUMPS then REFUSED
                 else if i + 1 >= |msg| || msg[i + 1] >= |msg| then REFUSED
                 else Scan(msg, start, msg[i + 1], if depth == 0 then r + 1 else r, depth + 1, s)
               else if len + i + 1 > |msg| then REFUSED
               else Scan(msg, start, i + len + 1, if depth == 0 then r + len + 1 else r, depth,
                         s + msg[i + 1..i + 1 + len] + [DOT])
  {
  }

  lemma DecodeResult(msg: bytes, start: nat)
    requires start <= |msg|
    ensures var d := Decode(msg, start);
            && -1 <= d.ret && (d.ret <= 0 ==> d.name == [])
            && (d.ret > 0 ==> 0 < |d.name| <= MAX_NAME && d.name[|d.name| - 1] == DOT)
            && start + d.ret <= |msg| + 1
  {
    ScanResult(msg, start, start, 0, 0, []);
  }

  // ---------- names in messages, as section 4.1.4 of RFC 1035 defines them ----------

  /** At `i` there are these labels and then the root, through `jumps` pointers to offsets
      below 256. */
  predicate NameAt(msg: bytes, i: nat, labels: seq<bytes>, jumps: nat)
    decreases jumps, |labels|
  {
    i < |msg| &&
    if msg[i] == JUMP_MARK then
      jumps > 0 && i + 1 < |msg| && NameAt(msg, msg[i + 1], labels, jumps - 1)
    else if labels == [] then jumps == 0 && msg[i] == 0
    else
      && IsLabel(labels[0]) && i + 1 + |labels[0]| <= |msg|
      && msg[i] == |labels[0]| && msg[i + 1..i + 1 + |labels[0]|] == labels[0]
      && NameAt(msg, i + 1 + |labels[0]|, labels[1..], jumps)
  }

  /** The bytes the name takes where it stands: up to its zero or its first pointer. */
  function NameSize(msg: bytes, i: nat, labels: seq<bytes>): nat
    decreases |labels|
  {
    if i < |msg| && msg[i] == JUMP_MARK then 2
    else if labels == [] then 1
    else 1 + |labels[0]| + NameSize(msg, i + 1 + |labels[0]|, labels[1..])
  }

  lemma {:induction false} ScanName(msg: bytes, start: nat, i: nat, r: nat, depth: nat, s: bytes, labels: seq<bytes>, jumps: nat)
    requires i <= |msg| && NameAt(msg, i, labels, jumps) && depth + jumps <= MAX_JUMPS
    requires jumps > 0 ==> start > 0
    ensures Scan(msg, start, i, r, depth, s)
            == Finish(s + FullName(labels), if depth == 0 then r + NameSize(msg, i, labels) - 1 else r)
    decreases jumps, |labels|
  {
    hide Scan, Finish, FullName, IsLabel;
    if msg[i] == JUMP_MARK {
      JumpScanned(msg, start, i, r, depth, s);
      ScanName(msg, start, msg[i + 1], if depth == 0 then r + 1 else r, depth + 1, s, labels, jumps - 1);
    } else if labels == [] {
      RootScanned(msg, start, i, r, depth, s);
    } else {
      var l := labels[0];
      LabelScanned(msg, start, i, r, depth, s, l);
      ScanName(msg, start, i + 1 + |l|, if depth == 0 then r + |l| + 1 else r, depth, s + l + [DOT], labels[1..], jumps);
      NameScanned(s, labels);
    }
  }

  lemma JumpScanned(msg: bytes, start: nat, i: nat, r: nat, depth: nat, s: bytes)
    requires start > 0 && i + 1 < |msg| && msg[i] == JUMP_MARK && msg[i + 1] < |msg| && depth < MAX_JUMPS
    ensures Scan(msg, start, i, r, depth, s) == Scan(msg, start, msg[i + 1], if depth == 0 then r + 1 else r, depth + 1, s)
  {
  }

  lemma RootScanned(msg: bytes, start: nat, i: nat, r: nat, depth: nat, s: bytes)
    requires i < |msg| && msg[i] == 0 && depth <= MAX_JUMPS
    ensures Scan(msg, start, i, r, depth, s) == Finish(s, r) && s + FullName([]) == s
  {
  }

  lemma LabelScanned(msg: bytes, start: nat, i: nat, r: nat, depth: nat, s: bytes, l: bytes)
    requires IsLabel(l) && i + 1 + |l| <= |msg| && msg[i] == |l| && msg[i + 1..i + 1 + |l|] == l && depth <= MAX_JUMPS
    ensures Scan(msg, start, i, r, depth, s)
            == Scan(msg, start, i + 1 + |l|, if depth == 0 then r + |l| + 1 else r, depth, s + l + [DOT])
  {
  }

  lemma NameScanned(s: bytes, labels: seq<bytes>)
    requires labels != []
    ensures s + FullName(labels) == s + labels[0] + [DOT] + FullName(labels[1..])
  {
    Seqs.JoinFour(s, labels[0], [DOT], FullName(labels[1..]));
  }

  /** A name of the message is decoded to its labels with dots after them, and the size it
      has where it stands, through up to ten pointers. */
  lemma DecodeName(msg: bytes, i: nat, labels: seq<bytes>, jumps: nat)
    requires NameAt(msg, i, labels, jumps) && jumps <= MAX_JUMPS && (jumps > 0 ==> i > 0)
    ensures i <= |msg|
    ensures labels != [] && |FullName(labels)| <= MAX_NAME ==>
              Decode(msg, i) == NameResult(NameSize(msg, i, labels), FullName(labels))
    ensures |FullName(labels)| > MAX_NAME ==> Decode(msg, i) == REFUSED
  {
    ScanName(msg, i, i, 0, 0, [], labels, jumps);
    assert [] + FullName(labels) == FullName(labels);
    if labels != [] { assert FullName(labels) == labels[0] + [DOT] + FullName(labels[1..]); }
    SizePositive(msg, i, labels);
  }

  lemma {:induction false} ScanRefused(msg: bytes, start: nat, i: nat, r: nat, depth: nat, s: bytes, labels: seq<bytes>, jumps: nat)
    requires NameAt(msg, i, labels, jumps) && depth <= MAX_JUMPS < depth + jumps && start > 0
    ensures Scan(msg, start, i, r, depth, s) == REFUSED
    decreases jumps, |labels|
  {
    if msg[i] == JUMP_MARK {
      if depth + 1 <= MAX_JUMPS {
        ScanRefused(msg, start, msg[i + 1], if depth == 0 then r + 1 else r, depth + 1, s, labels, jumps - 1);
      }
    } else {
      var len := |labels[0]|;
      ScanRefused(msg, start, i + len + 1, if depth == 0 then r + len + 1 else r, depth,
                  s + msg[i + 1..i + 1 + len] + [DOT], labels[1..], jumps);
    }
  }

  /** Names are read through ten pointers and no more, and to 255 bytes and no more. */
  lemma DecodesExactly(msg: bytes, i: nat, labels: seq<bytes>, jumps: nat)
    requires NameAt(msg, i, labels, jumps) && i > 0 && labels != []
    ensures i <= |msg|
    ensures Decode(msg, i) == if jumps <= 10 && |FullName(labels)| <= 255 then NameResult(NameSize(msg, i, labels), FullName(labels))
                              else NameResult(-1, [])
  {
    if jumps <= 10 {
      DecodeName(msg, i, labels, jumps);
    } else {
      ScanRefused(msg, i, i, 0, 0, [], labels, jumps);
    }
  }

  /** A name that the message ends in the middle of, before its zero, is read as if that were
      there, and counted with it. */
  lemma CutName(msg: bytes, i: nat, labels: seq<bytes>)
    requires i <= |msg| && AreLabels(labels) && labels != [] && msg[i..] == LabelBytes(labels) && |FullName(labels)| <= 255
    ensures Decode(msg, i) == NameResult(|msg| - i + 1, FullName(labels))
  {
    ScanToEnd(msg, i, i, 0, [], labels);
    assert [] + FullName(labels) == FullName(labels);
    assert FullName(labels) == labels[0] + [DOT] + FullName(labels[1..]);
  }

  lemma {:induction false} ScanToEnd(msg: bytes, start: nat, i: nat, r: nat, s: bytes, labels: seq<bytes>)
    requires i <= |msg| && AreLabels(labels) && msg[i..] == LabelBytes(labels)
    ensures Scan(msg, start, i, r, 0, s) == Finish(s + FullName(labels), r + |msg| - i)
    decreases |labels|
  {
    if labels == [] {
      assert s + FullName(labels) == s;
    } else {
      var l, rest := labels[0], labels[1..];
      assert IsLabel(l);
      FrontLabel(msg, i, l, LabelBytes(rest));
      ScanToEnd(msg, start, i + 1 + |l|, r + |l| + 1, s + l + [DOT], rest);
      Seqs.Join(s, l + [DOT], FullName(rest));
      Seqs.Join(s, l, [DOT]);
    }
  }

  lemma FrontLabel(msg: bytes, i: nat, l: bytes, more: bytes)
    requires |l| < 256 && i <= |msg| && msg[i..] == [|l|] + l + more
    ensures i + 1 + |l| <= |msg| && msg[i] == |l| && msg[i + 1..i + 1 + |l|] == l && msg[i + 1 + |l|..] == more
  {
    var m := msg[i..];
    assert m[0] == |l| && m[1..1 + |l|] == l && m[1 + |l|..] == more;
  }

  lemma SizePositive(msg: bytes, i: nat, labels: seq<bytes>)
    ensures NameSize(msg, i, labels) >= 1
  {
  }

  /** The front of a piece of the message, and what is left of it. */
  lemma Peel(msg: bytes, i: nat, w: bytes, l: bytes, rest: bytes)
    requires |l| < 256 && w == [|l|] + l + rest && i + |w| <= |msg| && msg[i..i + |w|] == w
    ensures msg[i] == |l| && msg[i + 1..i + 1 + |l|] == l
    ensures i + 1 + |l| + |rest| == i + |w| && msg[i + 1 + |l|..i + 1 + |l| + |rest|] == rest
  {
    var m := msg[i..i + |w|];
    assert m[0] == msg[i] == w[0];
    assert m[1..1 + |l|] == l && m[1 + |l|..] == rest;
    PartOf(msg, i, |w|, 1, |l|);
    PartOf(msg, i, |w|, 1 + |l|, |rest|);
  }

  lemma PartOf(msg: bytes, i: nat, n: nat, p: nat, k: nat)
    requires i + n <= |msg| && p + k <= n
    ensures msg[i..i + n][p..p + k] == msg[i + p..i + p + k]
  {
    var a, b := msg[i..i + n][p..p + k], msg[i + p..i + p + k];
    forall e | 0 <= e < k ensures a[e] == b[e] {
      assert a[e] == msg[i..i + n][p + e] == msg[i + p + e];
    }
    assert a == b;
  }

  lemma LabelStep(labels: seq<bytes>)
    requires AreLabels(labels) && labels != []
    ensures IsLabel(labels[0]) && LabelBytes(labels) == [|labels[0]|] + labels[0] + LabelBytes(labels[1..])
  {
  }

  lemma AppendNames(labels: seq<bytes>, target: seq<bytes>)
    requires labels != []
    ensures (labels + target)[1..] == labels[1..] + target && (labels + target)[0] == labels[0]
  {
  }

  lemma NameStep(msg: bytes, i: nat, labels: seq<bytes>, jumps: nat)
    requires labels != [] && i < |msg| && IsLabel(labels[0]) && i + 1 + |labels[0]| <= |msg|
    requires msg[i] == |labels[0]| && msg[i + 1..i + 1 + |labels[0]|] == labels[0]
    ensures NameAt(msg, i, labels, jumps) == NameAt(msg, i + 1 + |labels[0]|, labels[1..], jumps)
    ensures NameSize(msg, i, labels) == 1 + |labels[0]| + NameSize(msg, i + 1 + |labels[0]|, labels[1..])
  {
  }

  /** Labels followed by a pointer: those labels before the target's, and two bytes more. */
  lemma {:induction false} LabelsThenPointer(msg: bytes, i: nat, labels: seq<bytes>, n: nat, target: seq<bytes>, jumps: nat)
    requires AreLabels(labels) && n == |LabelBytes(labels)| && i + n + 1 < |msg|
    requires msg[i..i + n] == LabelBytes(labels) && msg[i + n] == JUMP_MARK
    requires NameAt(msg, msg[i + n + 1], target, jumps)
    ensures NameAt(msg, i, labels + target, jumps + 1)
    ensures NameSize(msg, i, labels + target) == n + 2
    decreases |labels|
  {
    hide LabelBytes, NameAt, NameSize, AreLabels, IsLabel;
    if labels == [] {
      PointerOnly(msg, i, n, target, jumps);
      assert labels + target == target;
    } else {
      var next := PeelLabel(msg, i, labels, n);
      LabelsThenPointer(msg, next, labels[1..], n - (next - i), target, jumps);
      AppendNames(labels, target);
      NameStep(msg, i, labels + target, jumps + 1);
    }
  }

  lemma PointerOnly(msg: bytes, i: nat, n: nat, target: seq<bytes>, jumps: nat)
    requires i + n + 1 < |msg| && msg[i + n] == JUMP_MARK && n == |LabelBytes([])|
    requires NameAt(msg, msg[i + n + 1], target, jumps)
    ensures n == 0 && NameAt(msg, i, target, jumps + 1) && NameSize(msg, i, target) == 2
  {
  }

  lemma PeelLabel(msg: bytes, i: nat, labels: seq<bytes>, n: nat) returns (next: nat)
    requires AreLabels(labels) && labels != [] && n == |LabelBytes(labels)| && i + n < |msg|
    requires msg[i..i + n] == LabelBytes(labels)
    ensures IsLabel(labels[0]) && AreLabels(labels[1..])
    ensures next == i + 1 + |labels[0]| <= i + n
    ensures msg[i] == |labels[0]| && msg[i + 1..next] == labels[0]
    ensures |LabelBytes(labels[1..])| == n - (next - i) && msg[next..i + n] == LabelBytes(labels[1..])
  {
    LabelStep(labels);
    hide LabelBytes;
    next := i + 1 + |labels[0]|;
    Peel(msg, i, LabelBytes(labels), labels[0], LabelBytes(labels[1..]));
  }

  /** Labels followed by the root. */
  lemma {:induction false} LabelsThenRoot(msg: bytes, i: nat, labels: seq<bytes>)
    requires AreLabels(labels) && i + |WireName(labels)| <= |msg|
    requires msg[i..i + |WireName(labels)|] == WireName(labels)
    ensures NameAt(msg, i, labels, 0) && NameSize(msg, i, labels) == |WireName(labels)|
    decreases |labels|
  {
    if labels == [] {
      assert msg[i] == msg[i..i + 1][0];
    } else {
      var l, rest := labels[0], labels[1..];
      WireNameStep(labels);
      Peel(msg, i, WireName(labels), l, WireName(rest));
      LabelsThenRoot(msg, i + 1 + |l|, rest);
    }
  }

  /** Encoding a host and decoding it gives the host with one dot at the end, and both
      report the size of the encoded name. */
  method RoundTrip(host: bytes, ghost labels: seq<bytes>) returns (encoded: int, qname: bytes, decoded: int, name: bytes)
    requires AreLabels(labels) && labels != [] && host == HostOf(labels) && |host| <= 254
    ensures qname == WireName(labels) && encoded == |qname|
    ensures decoded == encoded && name == host + [DOT]
  {
    EncodesLabels(labels, host);
    var forever;
    encoded, qname, forever := Host2QName(host);
    assert qname[0..|qname|] == qname;
    LabelsThenRoot(qname, 0, labels);
    HostThenDot(labels);
    DecodeName(qname, 0, labels, 0);
    decoded, name := QName2Host(qname, 0);
  }

  // ---------- every host ----------

  /** No label is empty, so no dot is at either end. */
  predicate NoneEmpty(t: bytes)
    decreases |t|
  {
    match FindDot(t)
    case None => t != []
    case Some(k) => k > 0 && NoneEmpty(t[k + 1..])
  }

  lemma {:induction false} SplitNoneEmpty(host: bytes)
    requires NoneEmpty(host)
    ensures NoneEmpty(SplitHost(host))
    decreases |host|
  {
    if FindDot(host).Some? {
      var k := FindDot(host).value;
      var piece, rest := SplitFirst(host);
      PieceFirst(piece, SplitHost(rest));
      if k > MAX_LABEL { RestNoneEmpty(host, piece, rest, k); }
      SplitNoneEmpty(rest);
    }
  }

  lemma RestNoneEmpty(host: bytes, piece: bytes, rest: bytes, k: nat)
    requires NoneEmpty(host) && FindDot(host) == Some(k) && k > MAX_LABEL && host == piece + rest && |piece| == MAX_LABEL
    ensures NoneEmpty(rest)
  {
    hide FindDot;
    assert rest == host[MAX_LABEL..];
    DotAfter(host, k, MAX_LABEL);
  }

  lemma {:induction false} ScanWire(msg: bytes, i: nat, r: nat, s: bytes, t: bytes)
    requires NoneEmpty(t) && InnerShort(t) && |LastPiece(t)| <= MAX_COUNT
    requires i <= |msg| && msg[i..] == Wire(t)
    ensures Scan(msg, 0, i, r, 0, s)
            == if |LastPiece(t)| <= MAX_LABEL then Finish(s + t + [DOT], r + |t| + 1) else REFUSED
    decreases |t|
  {
    hide Wire, Scan, FindDot, LastPiece, InnerShort, NoneEmpty;
    var k := PieceLength(t);
    PieceFacts(t);
    WireStep(t);
    if k + 1 < |t| {
      ScanPiece(msg, i, r, s, t, k, Wire(t[k + 1..]));
      ScanWire(msg, i + k + 1, r + k + 1, s + t[..k] + [DOT], t[k + 1..]);
      Rejoin(s, t, k);
    } else if k <= MAX_LABEL {
      ScanPiece(msg, i, r, s, t, k, [0]);
      ScanRoot(msg, i + k + 1, r + k + 1, s + t + [DOT]);
    } else {
      TooLong(msg, i, r, s, k, t);
    }
  }

  lemma PieceFacts(t: bytes)
    requires NoneEmpty(t) && InnerShort(t) && |LastPiece(t)| <= MAX_COUNT
    ensures var k := PieceLength(t);
            && 0 < k <= |t| && k <= MAX_COUNT && k + 1 != |t|
            && (k == |t| ==> LastPiece(t) == t && t[..k] == t)
            && (k + 1 < |t| ==> k <= MAX_LABEL && NoneEmpty(t[k + 1..]) && InnerShort(t[k + 1..])
                                && LastPiece(t) == LastPiece(t[k + 1..]) && t[k] == DOT)
  {
    hide FindDot;
    if FindDot(t).None? {
      assert t[..|t|] == t;
    } else {
      InnerFacts(t, PieceLength(t));
    }
  }

  lemma InnerFacts(t: bytes, k: nat)
    requires FindDot(t) == Some(k) && NoneEmpty(t) && InnerShort(t)
    ensures 0 < k <= MAX_LABEL && k + 1 < |t| && t[k] == DOT
    ensures NoneEmpty(t[k + 1..]) && InnerShort(t[k + 1..]) && LastPiece(t) == LastPiece(t[k + 1..])
  {
    hide FindDot;
  }

  lemma Rejoin(s: bytes, t: bytes, k: nat)
    requires k + 1 < |t| && t[k] == DOT
    ensures s + t[..k] + [DOT] + t[k + 1..] + [DOT] == s + t + [DOT]
  {
    assert t == t[..k] + [DOT] + t[k + 1..];
  }

  lemma ScanPiece(msg: bytes, i: nat, r: nat, s: bytes, t: bytes, k: nat, rest: bytes)
    requires 0 < k <= |t| && k <= MAX_LABEL && i <= |msg| && msg[i..] == [k] + t[..k] + rest
    ensures i + k + 1 <= |msg| && msg[i + k + 1..] == rest
    ensures Scan(msg, 0, i, r, 0, s) == Scan(msg, 0, i + k + 1, r + k + 1, 0, s + t[..k] + [DOT])
  {
    var m := msg[i..];
    assert m[0] == msg[i] == k && |m| == 1 + k + |rest|;
    assert m[1..1 + k] == t[..k] == msg[i + 1..i + 1 + k];
    assert m[k + 1..] == rest == msg[i + k + 1..];
  }

  lemma ScanRoot(msg: bytes, i: nat, r: nat, s: bytes)
    requires i <= |msg| && msg[i..] == [0]
    ensures Scan(msg, 0, i, r, 0, s) == Finish(s, r)
  {
    assert msg[i] == msg[i..][0];
  }

  lemma TooLong(msg: bytes, i: nat, r: nat, s: bytes, k: nat, t: bytes)
    requires MAX_LABEL < k <= MAX_COUNT && k <= |t| && i <= |msg| && msg[i..] == [k] + t[..k] + [0]
    ensures Scan(msg, 0, i, r, 0, s) == REFUSED
  {
    assert msg[i] == msg[i..][0];
  }

  /** Encoding and then decoding any host without empty labels gives it back, split, with one
      dot at the end, exactly when its last label has at most 63 bytes and the name 255; a
      longer last label is written with a length that is not one. */
  lemma ReadBackExactly(host: bytes)
    requires NoneEmpty(host) && 0 !in host && |LastPiece(host)| <= MAX_COUNT
    ensures var split := SplitHost(host);
            Decode(Wire(UpToNul(split)), 0)
            == if |LastPiece(host)| <= MAX_LABEL && |split| < MAX_NAME then NameResult(|split| + 2, split + [DOT]) else REFUSED
  {
    hide SplitHost, Wire, UpToNul, LastPiece, InnerShort, NoneEmpty, Scan;
    var split := SplitHost(host);
    SplitNoneEmpty(host);
    SplitInnerShort(host);
    SplitKeepsBytes(host);
    SplitNoNul(host);
    NoZero(split);
    assert Wire(split)[0..] == Wire(split) && [] + split + [DOT] == split + [DOT];
    ScanWire(Wire(split), 0, 0, [], split);
  }

  lemma HostThenDot(labels: seq<bytes>)
    requires labels != []
    ensures FullName(labels) == HostOf(labels) + [DOT]
  {
    if |labels| == 1 {
      assert FullName(labels[1..]) == [];
    } else {
      HostThenDot(labels[1..]);
      Seqs.JoinFour(labels[0], [DOT], HostOf(labels[1..]), [DOT]);
    }
  }

  // ---------- pointers to any offset ----------

  /** The 14-bit offset of a pointer, as section 4.1.4 of RFC 1035 has it. */
  function OffsetAt(msg: bytes, i: nat): nat
    requires i + 1 < |msg| && msg[i] >= JUMP_MARK
  {
    (msg[i] as int - JUMP_MARK) * 256 + msg[i + 1]
  }

  const OFFSETS := 0x4000

  /** The names of section 4.1.4 of RFC 1035 whose pointers all have offsets below `bound`;
      with all of `OFFSETS` these are the names the RFC defines. */
  predicate NameBelow(msg: bytes, i: nat, labels: seq<bytes>, jumps: nat, bound: nat)
    decreases jumps, |labels|
  {
    i < |msg| &&
    if msg[i] >= JUMP_MARK then
      jumps > 0 && i + 1 < |msg| && OffsetAt(msg, i) < bound && NameBelow(msg, OffsetAt(msg, i), labels, jumps - 1, bound)
    else if labels == [] then jumps == 0 && msg[i] == 0
    else
      && IsLabel(labels[0]) && i + 1 + |labels[0]| <= |msg|
      && msg[i] == |labels[0]| && msg[i + 1..i + 1 + |labels[0]|] == labels[0]
      && NameBelow(msg, i + 1 + |labels[0]|, labels[1..], jumps, bound)
  }

  /** The names decoded rightly are the RFC's names with small offsets. */
  lemma {:induction false} NameAtIs(msg: bytes, i: nat, labels: seq<bytes>, jumps: nat)
    ensures NameAt(msg, i, labels, jumps) <==> NameBelow(msg, i, labels, jumps, 256)
    decreases jumps, |labels|
  {
    if i < |msg| {
      if msg[i] >= JUMP_MARK {
        if jumps > 0 && i + 1 < |msg| { NameAtIs(msg, msg[i + 1], labels, jumps - 1); }
      } else if labels != [] {
        NameAtIs(msg, i + 1 + |labels[0]|, labels[1..], jumps);
      }
    }
  }

  /** At `i` there is a pointer to `offset`, and there a name with at most nine more pointers,
      all small, and few enough bytes. */
  predicate PointsTo(msg: bytes, i: nat, offset: nat, labels: seq<bytes>)
  {
    && 0 < i && i + 1 < |msg| && msg[i] >= JUMP_MARK && OffsetAt(msg, i) == offset
    && labels != [] && |FullName(labels)| <= MAX_NAME
    && exists jumps :: 0 <= jumps < MAX_JUMPS && NameBelow(msg, offset, labels, jumps, 256)
  }

  predicate Follows(msg: bytes, i: nat, offset: nat, labels: seq<bytes>) {
    PointsTo(msg, i, offset, labels) ==> Decode(msg, i) == NameResult(2, FullName(labels))
  }

  /** Whatever a pointer's offset is, the name decoded is the one at its low byte. */
  lemma PointerByte(msg: bytes, i: nat, found: seq<bytes>, jumps: nat)
    requires 0 < i && i + 1 < |msg| && msg[i] >= JUMP_MARK
    requires NameAt(msg, msg[i + 1], found, jumps) && jumps < MAX_JUMPS
    requires found != [] && |FullName(found)| <= MAX_NAME
    ensures Decode(msg, i) == NameResult(2, FullName(found))
  {
    hide Scan, NameAt, NameSize, FullName;
    NameInside(msg, msg[i + 1], found, jumps);
    JumpOnce(msg, i);
    ScanName(msg, i, msg[i + 1], 1, 1, [], found, jumps);
    assert [] + FullName(found) == FullName(found);
    NameNotEmpty(found);
  }

  /** Pointers to an offset are followed to the name there, in every message, exactly when
      the offset is below 256. */
  lemma PointerExact(offset: nat)
    requires offset < OFFSETS
    ensures (forall msg, i, labels :: Follows(msg, i, offset, labels)) <==> offset < 256
  {
    if offset < 256 {
      forall msg, i, labels ensures Follows(msg, i, offset, labels) {
        PointerFollowed(msg, i, offset, labels);
      }
    } else {
      WrongName(offset);
      assert !Follows(TwoNames(offset), offset + 3, offset, [['b' as int]]);
    }
  }

  lemma PointerFollowed(msg: bytes, i: nat, offset: nat, labels: seq<bytes>)
    requires offset < 256
    ensures Follows(msg, i, offset, labels)
  {
    if PointsTo(msg, i, offset, labels) {
      var jumps :| 0 <= jumps < MAX_JUMPS && NameBelow(msg, offset, labels, jumps, 256);
      NameAtIs(msg, offset, labels, jumps);
      PointerByte(msg, i, labels, jumps);
    }
  }

  /** A message with the name b at `offset`, the name a at its low byte, and a pointer to
      the first after it. */
  function TwoNames(offset: nat): (msg: bytes)
    requires 256 <= offset < OFFSETS
  {
    var low := offset % 256;
    seq(low, _ => 0) + NAME_A + seq(offset - low - 3, _ => 0) + NAME_B + [JUMP_MARK + offset / 256, low]
  }

  const NAME_A: bytes := [1, 'a' as int, 0]
  const NAME_B: bytes := [1, 'b' as int, 0]

  /** The message above is decoded to the other name. */
  lemma WrongName(offset: nat)
    requires 256 <= offset < OFFSETS
    ensures PointsTo(TwoNames(offset), offset + 3, offset, [['b' as int]])
    ensures Decode(TwoNames(offset), offset + 3) == NameResult(2, FullName([['a' as int]]))
    ensures FullName([['a' as int]]) != FullName([['b' as int]])
  {
    var msg, low := TwoNames(offset), offset % 256;
    TwoNamesAre(offset);
    OneLabel(msg, offset, 'b' as int);
    OneLabel(msg, low, 'a' as int);
    NameAtIs(msg, offset, [['b' as int]], 0);
    PointerByte(msg, offset + 3, [['a' as int]], 0);
  }

  lemma TwoNamesAre(offset: nat)
    requires 256 <= offset < OFFSETS
    ensures var msg, low := TwoNames(offset), offset % 256;
            && |msg| == offset + 5
            && msg[low..low + 3] == NAME_A && msg[offset..offset + 3] == NAME_B
            && msg[offset + 3] == JUMP_MARK + offset / 256 && msg[offset + 4] == low
  {
  }

  lemma OneLabel(msg: bytes, i: nat, c: byte)
    requires i + 3 <= |msg| && msg[i..i + 3] == [1, c, 0] && IsLabel([c])
    ensures NameAt(msg, i, [[c]], 0) && FullName([[c]]) == [c, DOT]
  {
    var m := msg[i..i + 3];
    assert msg[i] == m[0] && msg[i + 1] == m[1] && msg[i + 2] == m[2];
    assert msg[i + 1..i + 2] == [c];
    assert NameAt(msg, i + 2, [], 0);
  }

  lemma JumpOnce(msg: bytes, i: nat)
    requires 0 < i && i + 1 < |msg| && msg[i] >= JUMP_MARK && msg[i + 1] < |msg|
    ensures Decode(msg, i) == Scan(msg, i, msg[i + 1], 1, 1, [])
  {
  }

  lemma NameInside(msg: bytes, i: nat, labels: seq<bytes>, jumps: nat)
    requires NameAt(msg, i, labels, jumps)
    ensures i < |msg|
  {
  }

  lemma NameNotEmpty(labels: seq<bytes>)
    requires labels != []
    ensures FullName(labels) != []
  {
  }
}
