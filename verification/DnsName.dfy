/** Names in the wire form of sections 3.1 and 4.1.4 of RFC 1035: host2qname and qname2host
    of src/dns/dnshttps.cc. */
module DnsName {
  import Seqs
  import opened Wrappers
  import opened Bytes

  const DOT: byte := 46
  const MAX_LABEL := 63
  const VISITED: byte := 255
  const SPLIT_LIMIT := 2048
  const BUF_SIZE := 4096

  predicate NoDot(s: bytes) {
    forall e :: 0 <= e < |s| ==> s[e] != DOT
  }

  /** The first dot. */
  function FindDot(s: bytes): (r: Option<nat>)
    ensures r.Some? ==> r.value < |s| && s[r.value] == DOT && forall e :: 0 <= e < r.value ==> s[e] != DOT
    ensures r.None? ==> NoDot(s)
  {
    if s == [] then None
    else if s[0] == DOT then Some(0)
    else match FindDot(s[1..])
         case None => None
         case Some(k) => Some(k + 1)
  }

  lemma FindDotIs(s: bytes, k: nat)
    requires k < |s| && s[k] == DOT && forall e :: 0 <= e < k ==> s[e] != DOT
    ensures FindDot(s) == Some(k)
  {
  }

  /** A piece, a dot, and the rest, put together and taken apart. */
  lemma PieceFirst(piece: bytes, rest: bytes)
    requires NoDot(piece)
    ensures var s := piece + [DOT] + rest;
            && FindDot(s) == Some(|piece|) && s[..|piece|] == piece && s[|piece| + 1..] == rest
  {
    FindDotIs(piece + [DOT] + rest, |piece|);
  }

  lemma PieceApart(s: bytes, k: nat)
    requires FindDot(s) == Some(k)
    ensures NoDot(s[..k]) && s == s[..k] + [DOT] + s[k + 1..]
  {
  }

  // ---------- host2qname: splitting ----------

  /** The host with a dot put into every over-long label that has a dot after it. */
  function SplitHost(host: bytes): bytes
    decreases |host|
  {
    match FindDot(host)
    case None => host
    case Some(k) =>
      if k > MAX_LABEL then host[..MAX_LABEL] + [DOT] + SplitHost(host[MAX_LABEL..])
      else host[..k] + [DOT] + SplitHost(host[k + 1..])
  }

  lemma SplitStep(host: bytes, pos1: nat, done: bytes, n: nat, next: nat)
    requires pos1 <= |host| && FindDot(host[pos1..]).Some?
    requires var k := FindDot(host[pos1..]).value;
             if k > MAX_LABEL then n == MAX_LABEL && next == pos1 + n else n == k && next == pos1 + n + 1
    ensures pos1 + n <= next <= |host|
    ensures done + SplitHost(host[pos1..]) == done + host[pos1..pos1 + n] + [DOT] + SplitHost(host[next..])
  {
    hide SplitHost, FindDot;
    SplitUnfold(host[pos1..]);
    Slices(host, pos1, n, next);
    Seqs.JoinFour(done, host[pos1..pos1 + n], [DOT], SplitHost(host[next..]));
  }

  lemma SplitUnfold(s: bytes)
    requires FindDot(s).Some?
    ensures var k := FindDot(s).value;
            var n := if k > MAX_LABEL then MAX_LABEL else k;
            SplitHost(s) == s[..n] + [DOT] + SplitHost(s[if k > MAX_LABEL then n else n + 1..])
  {
  }

  lemma Slices(s: bytes, p: nat, n: nat, next: nat)
    requires p <= next <= |s| && p + n <= |s|
    ensures s[p..][..n] == s[p..p + n] && s[p..][next - p..] == s[next..]
  {
  }

  method SplitLoop(host: bytes) returns (split: bytes)
    ensures split == SplitHost(host)
  {
    hide SplitHost, FindDot;
    split := [];
    var pos1: nat := 0;
    assert host[0..] == host;
    while pos1 < |host|
      invariant 0 <= pos1 <= |host| && SplitHost(host) == split + SplitHost(host[pos1..])
    {
      var rest := host[pos1..];
      var pos2 := FindDot(rest);
      if pos2 == None {
        SplitNone(rest);
        split := split + rest;
        return;
      }
      if pos2.value > MAX_LABEL {
        SplitStep(host, pos1, split, MAX_LABEL, pos1 + MAX_LABEL);
        split := split + host[pos1..pos1 + MAX_LABEL];
        pos1 := pos1 + MAX_LABEL;
      } else {
        SplitStep(host, pos1, split, pos2.value, pos1 + pos2.value + 1);
        split := split + host[pos1..pos1 + pos2.value];
        pos1 := pos1 + pos2.value + 1;
      }
      split := split + [DOT];
    }
    SplitNone(host[pos1..]);
  }

  lemma SplitNone(s: bytes)
    ensures FindDot(s) == None ==> SplitHost(s) == s
    ensures s == [] ==> SplitHost(s) == []
  {
  }

  /** Every piece with a dot after it has at most 63 bytes. */
  predicate InnerShort(s: bytes)
    decreases |s|
  {
    match FindDot(s)
    case None => true
    case Some(k) => k <= MAX_LABEL && InnerShort(s[k + 1..])
  }

  function WithoutDots(s: bytes): bytes {
    if s == [] then [] else (if s[0] == DOT then [] else [s[0]]) + WithoutDots(s[1..])
  }

  /** What follows the last dot. */
  function LastPiece(s: bytes): bytes
    decreases |s|
  {
    match FindDot(s)
    case None => s
    case Some(k) => LastPiece(s[k + 1..])
  }

  lemma {:induction false} WithoutDotsAppend(a: bytes, b: bytes)
    ensures WithoutDots(a + b) == WithoutDots(a) + WithoutDots(b)
  {
    hide WithoutDots;
    if a == [] {
      WithoutDotsNone();
      assert a + b == b;
    } else {
      WithoutDotsAppend(a[1..], b);
      WithoutDotsHead(a);
      WithoutDotsHead(a + b);
      assert (a + b)[1..] == a[1..] + b;
    }
  }

  lemma WithoutDotsNone()
    ensures WithoutDots([]) == []
  {
  }

  lemma WithoutDotsHead(s: bytes)
    requires s != []
    ensures WithoutDots(s) == (if s[0] == DOT then [] else [s[0]]) + WithoutDots(s[1..])
  {
  }

  /** One step of the split, as a piece and the rest of the host. */
  lemma SplitFirst(host: bytes) returns (piece: bytes, rest: bytes)
    requires FindDot(host).Some?
    ensures NoDot(piece) && |piece| <= MAX_LABEL && |rest| < |host|
    ensures SplitHost(host) == piece + [DOT] + SplitHost(rest)
    ensures LastPiece(host) == LastPiece(rest)
    ensures var k := FindDot(host).value;
            if k > MAX_LABEL then host == piece + rest && |piece| == MAX_LABEL && NoDot(piece)
            else host == piece + [DOT] + rest && |piece| == k && rest == host[k + 1..]
  {
    hide SplitHost, FindDot, LastPiece;
    var k := FindDot(host).value;
    SplitUnfold(host);
    DotAt(host);
    LastPieceStep(host);
    if k > MAX_LABEL {
      piece, rest := host[..MAX_LABEL], host[MAX_LABEL..];
      DotAfter(host, k, MAX_LABEL);
      LastPieceStep(rest);
    } else {
      piece, rest := host[..k], host[k + 1..];
      PieceApart(host, k);
    }
  }

  lemma DotAt(s: bytes)
    requires FindDot(s).Some?
    ensures FindDot(s).value < |s| && NoDot(s[..FindDot(s).value])
  {
  }

  /** The first dot, seen from further on. */
  lemma DotAfter(s: bytes, k: nat, n: nat)
    requires FindDot(s) == Some(k) && n < k < |s|
    ensures FindDot(s[n..]) == Some(k - n) && s[n..][k - n + 1..] == s[k + 1..] && NoDot(s[..n])
    ensures s == s[..n] + s[n..]
  {
    hide FindDot;
    var rest := s[n..];
    forall e | 0 <= e < k - n ensures rest[e] != DOT {
      assert rest[e] == s[n + e];
    }
    FindDotIs(rest, k - n);
  }

  /** Splitting leaves no inner label over 63 bytes. */
  lemma {:induction false} SplitInnerShort(host: bytes)
    ensures InnerShort(SplitHost(host))
    decreases |host|
  {
    if FindDot(host).Some? {
      var piece, rest := SplitFirst(host);
      SplitInnerShort(rest);
      PieceFirst(piece, SplitHost(rest));
    }
  }

  /** Splitting adds dots and nothing else, and leaves the last label alone. */
  lemma {:induction false} SplitKeepsBytes(host: bytes)
    ensures WithoutDots(SplitHost(host)) == WithoutDots(host)
    ensures LastPiece(SplitHost(host)) == LastPiece(host)
    decreases |host|
  {
    if FindDot(host).Some? {
      var piece, rest := SplitFirst(host);
      SplitKeepsBytes(rest);
      PieceFirst(piece, SplitHost(rest));
      LastPieceStep(SplitHost(host));
      hide *;
      WithoutDot(piece, SplitHost(rest));
      WithoutDot(piece, rest);
      WithoutDotsAppend(piece, rest);
    }
  }

  lemma WithoutDot(piece: bytes, rest: bytes)
    ensures WithoutDots(piece + [DOT] + rest) == WithoutDots(piece) + WithoutDots(rest)
  {
    hide WithoutDots;
    WithoutDotsAppend(piece + [DOT], rest);
    WithoutDotsAppend(piece, [DOT]);
    DotAlone();
    assert WithoutDots(piece) + [] == WithoutDots(piece);
  }

  lemma DotAlone()
    ensures WithoutDots([DOT]) == []
  {
  }

  lemma LastPieceStep(s: bytes)
    requires FindDot(s).Some?
    ensures LastPiece(s) == LastPiece(s[FindDot(s).value + 1..])
  {
  }

  /** A host stays as it is exactly when its inner labels are short enough. */
  lemma {:induction false} SplitUnchanged(host: bytes)
    ensures SplitHost(host) == host <==> InnerShort(host)
    ensures |host| <= |SplitHost(host)|
    decreases |host|
  {
    if FindDot(host).Some? {
      var piece, rest := SplitFirst(host);
      SplitUnchanged(rest);
      if FindDot(host).value <= MAX_LABEL {
        PieceFirst(piece, rest);
        PieceFirst(piece, SplitHost(rest));
      } else {
        assert |SplitHost(host)| > |host|;
      }
    }
  }

  // ---------- host2qname: counts in place of dots ----------

  /** The bytes before the first zero byte, where the counting loop stops. */
  function UpToNul(s: bytes): (r: bytes)
    ensures r <= s && 0 !in r
    ensures |r| < |s| ==> s[|r|] == 0
  {
    if s == [] || s[0] == 0 then [] else [s[0]] + UpToNul(s[1..])
  }

  const MAX_COUNT := 254

  /** No piece is longer than the 8-bit counter of the loop can count. */
  predicate Countable(t: bytes)
    decreases |t|
  {
    match FindDot(t)
    case None => |t| <= MAX_COUNT
    case Some(k) => k <= MAX_COUNT && Countable(t[k + 1..])
  }

  /** The pieces of a text, each after its length, and a zero byte; a dot at the end does
      not start another piece. (A length is one byte; Countable is when that is enough.) */
  function Wire(t: bytes): bytes
    decreases |t|
  {
    if t == [] then [0]
    else match FindDot(t)
         case None => [Count(|t|)] + t + [0]
         case Some(k) =>
           if k + 1 == |t| then [Count(k)] + t[..k] + [0] else [Count(k)] + t[..k] + Wire(t[k + 1..])
  }

  /** A length in one byte. */
  function Count(k: nat): (b: byte)
    ensures k < 256 ==> b == k
  {
    k % 256
  }

  /** The length of the piece at the front of a text. */
  function PieceLength(t: bytes): nat {
    match FindDot(t)
    case None => |t|
    case Some(k) => k
  }

  lemma WireStep(t: bytes)
    requires t != []
    ensures var k := PieceLength(t);
            && k <= |t| && (k < |t| ==> t[k] == DOT) && NoDot(t[..k])
            && (k <= MAX_COUNT && k + 1 >= |t| ==> Wire(t) == [k] + t[..k] + [0])
            && (k <= MAX_COUNT && k + 1 < |t| ==> Wire(t) == [k] + t[..k] + Wire(t[k + 1..]))
  {
    hide Count;
    if FindDot(t).None? { assert t[..|t|] == t; }
  }

  lemma CountableStep(t: bytes)
    requires t != []
    ensures var k := PieceLength(t);
            k <= |t| && (Countable(t) <==> k <= MAX_COUNT && (k + 1 < |t| ==> Countable(t[k + 1..])))
  {
  }

  /** The buffer before counting: a slot, the text, zeros. */
  predicate Laid(buf: bytes, split: bytes) {
    && |buf| == BUF_SIZE && |split| < SPLIT_LIMIT && buf[0] == 0
    && buf[1..1 + |split|] == split
    && forall p :: |split| < p < BUF_SIZE ==> buf[p] == 0
  }

  lemma TextAfter(split: bytes, orig: bytes, at: nat)
    requires Laid(orig, split) && at <= |split|
    ensures var t := UpToNul(split[at..]);
            at + |t| <= |split| && orig[at + 1..at + 1 + |t|] == t && orig[at + 1 + |t|] == 0
  {
    var t := UpToNul(split[at..]);
    hide UpToNul;
    assert t == split[at..][..|t|] == split[at..at + |t|];
    SliceOfSlice(orig, split, at, |t|);
    if at + |t| < |split| {
      assert split[at..][|t|] == split[at + |t|];
      assert orig[1..1 + |split|][at + |t|] == orig[at + 1 + |t|];
    }
  }

  lemma SliceOfSlice(orig: bytes, split: bytes, at: nat, n: nat)
    requires |split| < |orig| && orig[1..1 + |split|] == split && at + n <= |split|
    ensures orig[at + 1..at + 1 + n] == split[at..at + n]
  {
    var a, b := orig[at + 1..at + 1 + n], split[at..at + n];
    forall e | 0 <= e < n ensures a[e] == b[e] {
      assert orig[1..1 + |split|][at + e] == orig[at + 1 + e];
    }
  }

  /** The text after a dot that is not its last byte is the text from there on. */
  lemma TextStep(split: bytes, at: nat, k: nat)
    requires at + k + 1 <= |split| && k < |UpToNul(split[at..])|
    ensures UpToNul(split[at..])[k + 1..] == UpToNul(split[at + k + 1..])
  {
    NulStep(split[at..], k + 1);
    assert split[at..][k + 1..] == split[at + k + 1..];
  }

  lemma NulStep(s: bytes, n: nat)
    requires n <= |UpToNul(s)|
    ensures UpToNul(s)[n..] == UpToNul(s[n..])
  {
    if n > 0 {
      NulStep(s[1..], n - 1);
      assert s[1..][n - 1..] == s[n..];
    }
  }

  /** The inner loop, with its 8-bit counter: from a slot that holds a dot or zero it stops at
      once, from a visited one at the next dot or zero. When the counter comes back to 0 it
      goes round for ever, see ScanEndsExactly; that is so for a piece of more than 254 bytes. */
  method CountPiece(buf: array<byte>, slot: nat, ghost piece: bytes) returns (i: byte, forever: bool)
    requires slot + 1 + |piece| < buf.Length && slot + 256 <= buf.Length
    requires buf[slot] == DOT || buf[slot] == 0 ||
             (&& buf[slot] == VISITED && buf[slot + 1..slot + 1 + |piece|] == piece
              && NoDot(piece) && 0 !in piece
              && (buf[slot + 1 + |piece|] == DOT || buf[slot + 1 + |piece|] == 0))
    ensures forever <==> buf[slot] == VISITED && |piece| > MAX_COUNT
    ensures !forever ==> i == if buf[slot] == DOT || buf[slot] == 0 then 0 else |piece| + 1
  {
    i := 0;
    forever := false;
    while buf[slot + i] != DOT && buf[slot + i] != 0
      invariant 0 <= i <= |piece| + 1 && (i > 0 ==> buf[slot] == VISITED)
      decreases 255 - i
    {
      if buf[slot] == VISITED && 0 < i <= |piece| { PieceByte(buf[..], slot, piece, i - 1); }
      if i == 255 {
        return 0, true;
      }
      i := i + 1;
    }
    if buf[slot] == VISITED && 0 < i <= |piece| { PieceByte(buf[..], slot, piece, i - 1); }
    if buf[slot] == VISITED && 0 < i <= |piece| { Stops(piece, i - 1); }
  }

  lemma PieceByte(buf: bytes, slot: nat, piece: bytes, e: int)
    requires slot + 1 + |piece| < |buf| && buf[slot + 1..slot + 1 + |piece|] == piece && 0 <= e < |piece|
    ensures buf[slot + 1 + e] == piece[e]
  {
    assert buf[slot + 1..slot + 1 + |piece|][e] == buf[slot + 1 + e];
  }

  lemma Stops(piece: bytes, e: int)
    requires 0 <= e < |piece| && NoDot(piece) && 0 !in piece
    ensures piece[e] != DOT && piece[e] != 0
  {
  }

  /** What the counting loop knows at its head: behind the slot everything is counted, after
      it nothing is touched, and the slot itself is seen twice. */
  ghost predicate Counting(buf: bytes, orig: bytes, split: bytes, slot: nat) {
    && |buf| == BUF_SIZE && Laid(orig, split) && slot < |split|
    && buf[slot + 1..] == orig[slot + 1..]
    && (slot > 0 || buf[slot] == VISITED ==> split[slot] != 0)
    && (buf[slot] == VISITED || buf[slot] == if slot == 0 then 0 else DOT)
    && (Countable(UpToNul(split)) <==> Countable(UpToNul(split[slot..])))
    && buf[..slot] + Wire(UpToNul(split[slot..])) == Wire(UpToNul(split))
  }

  lemma FirstVisit(buf: bytes, orig: bytes, split: bytes, slot: nat)
    requires Counting(buf, orig, split, slot) && buf[slot] != VISITED
    ensures if buf[slot + 1] == 0 then slot == 0 && Wire(UpToNul(split)) == [0] && Countable(UpToNul(split))
            else Counting(buf[slot := VISITED], orig, split, slot)
  {
    var b := buf[slot := VISITED];
    assert b[..slot] == buf[..slot] && b[slot + 1..] == buf[slot + 1..];
    SameAfter(buf, orig, slot, slot + 1);
    assert orig[1..1 + |split|][slot] == orig[slot + 1];
    if split[slot] == 0 && slot == 0 { assert UpToNul(split) == []; }
  }

  lemma SameAfter(buf: bytes, orig: bytes, slot: nat, p: nat)
    requires slot < p < |buf| == |orig| && buf[slot + 1..] == orig[slot + 1..]
    ensures buf[p] == orig[p]
  {
    assert buf[slot + 1..][p - slot - 1] == orig[slot + 1..][p - slot - 1];
  }

  /** The bytes a visit meets after its slot: the text, and a zero. */
  lemma TextAt(buf: bytes, orig: bytes, split: bytes, slot: nat, t: bytes)
    requires Counting(buf, orig, split, slot) && t == UpToNul(split[slot..])
    ensures slot + |t| <= |split| && slot + |t| + 2 < BUF_SIZE && 0 !in t && buf[slot + 1..slot + 1 + |t|] == t && buf[slot + 1 + |t|] == 0
  {
    hide Wire, Countable, UpToNul;
    TextAfter(split, orig, slot);
    SameAfter(buf, orig, slot, slot + 1 + |t|);
    assert buf[slot + 1..][..|t|] == orig[slot + 1..][..|t|];
    assert orig[slot + 1..][..|t|] == orig[slot + 1..slot + 1 + |t|];
  }

  lemma PieceAt(buf: bytes, slot: nat, t: bytes, k: nat)
    requires slot + |t| + 2 < |buf| && buf[slot + 1..slot + 1 + |t|] == t && buf[slot + 1 + |t|] == 0
    requires k <= |t|
    ensures buf[slot + 1..slot + 1 + k] == t[..k]
    ensures k < |t| ==> buf[slot + 1 + k] == t[k]
    ensures k + 1 < |t| ==> buf[slot + 1 + k + 1] == t[k + 1]
  {
    assert buf[slot + 1..slot + 1 + |t|][..k] == buf[slot + 1..slot + 1 + k];
  }

  lemma PieceShort(t: bytes)
    ensures PieceLength(t) <= |t|
  {
  }

  /** The second visit writes the count; what follows the piece decides what is done next. */
  lemma SecondVisit(buf: bytes, orig: bytes, split: bytes, slot: nat, t: bytes, k: nat)
    requires Counting(buf, orig, split, slot) && buf[slot] == VISITED
    requires t == UpToNul(split[slot..]) && k == PieceLength(t)
    ensures t != [] && k <= |t|
    ensures k > MAX_COUNT ==> !Countable(UpToNul(split))
    ensures k <= MAX_COUNT && k + 1 >= |t| ==>
              Wire(UpToNul(split)) == buf[..slot] + [k] + t[..k] + [0] && Countable(UpToNul(split))
    ensures k <= MAX_COUNT && k + 1 < |t| ==>
              slot + k + 1 < BUF_SIZE && Counting(buf[slot := k], orig, split, slot + k + 1)
    ensures k < |t| ==> t[k] == DOT
    ensures NoDot(t[..k]) && 0 !in t[..k] && 0 !in t
  {
    hide Wire, Countable, PieceLength;
    NonEmptyText(split, slot);
    WireStep(t);
    CountableStep(t);
    if k <= MAX_COUNT {
      if k + 1 >= |t| {
        Seqs.JoinFour(buf[..slot], [k], t[..k], [0]);
      } else {
        NextSlot(buf, orig, split, slot, t, k);
      }
    }
  }

  /** A dot with more text after it is the next slot. */
  lemma NextSlot(buf: bytes, orig: bytes, split: bytes, slot: nat, t: bytes, k: nat)
    requires Counting(buf, orig, split, slot) && t == UpToNul(split[slot..]) && k == PieceLength(t)
    requires k <= MAX_COUNT && k + 1 < |t| && t[k] == DOT
    requires (Countable(t) <==> Countable(t[k + 1..])) && Wire(t) == [k] + t[..k] + Wire(t[k + 1..])
    ensures slot + k + 1 < BUF_SIZE && Counting(buf[slot := k], orig, split, slot + k + 1)
  {
    hide UpToNul, PieceLength, Countable, Wire, Counting, Laid;
    Slot(buf, orig, split, slot);
    TextAt(buf, orig, split, slot, t);
    TextStep(split, slot, k);
    PieceAt(buf, slot, t, k);
    assert t[k + 1] in t;
    Seqs.JoinFour(buf[..slot], [k], t[..k], Wire(t[k + 1..]));
    CountingOn(buf, split, slot, k, slot + k + 1);
    SoFar(buf, orig, split, slot, t);
    CountingAt(buf, buf[slot := k], orig, split, slot, slot + k + 1);
  }

  lemma SoFar(buf: bytes, orig: bytes, split: bytes, slot: nat, t: bytes)
    requires Counting(buf, orig, split, slot) && t == UpToNul(split[slot..])
    ensures slot < |buf| && (Countable(UpToNul(split)) <==> Countable(t)) && buf[..slot] + Wire(t) == Wire(UpToNul(split))
  {
  }

  /** The next slot is a slot, once the bytes before it are counted. */
  lemma CountingAt(buf: bytes, b: bytes, orig: bytes, split: bytes, slot: nat, next: nat)
    requires Counting(buf, orig, split, slot) && slot < next && next + 1 < |b| == BUF_SIZE && next < |split|
    requires b[next] == DOT && b[next + 1] != 0 && b[next + 1..] == buf[next + 1..]
    requires Countable(UpToNul(split)) <==> Countable(UpToNul(split[next..]))
    requires b[..next] + Wire(UpToNul(split[next..])) == Wire(UpToNul(split))
    ensures Counting(b, orig, split, next)
  {
    hide UpToNul, Countable, Wire;
    SameTail(buf, orig, slot, next);
    assert b[next + 1..][0] == b[next + 1];
    assert orig[next + 1..][0] == orig[next + 1];
    assert orig[1..1 + |split|][next] == orig[next + 1];
  }

  lemma SameTail(buf: bytes, orig: bytes, slot: nat, next: nat)
    requires slot < next < |buf| == |orig| && buf[slot + 1..] == orig[slot + 1..]
    ensures buf[next + 1..] == orig[next + 1..]
  {
    assert buf[slot + 1..][next - slot..] == buf[next + 1..];
    assert orig[slot + 1..][next - slot..] == orig[next + 1..];
  }

  lemma NonEmptyText(split: bytes, slot: nat)
    requires slot < |split| && split[slot] != 0
    ensures UpToNul(split[slot..]) != []
  {
    assert split[slot..][0] == split[slot];
  }

  lemma CountingOn(buf: bytes, split: bytes, slot: nat, k: nat, next: nat)
    requires |buf| == BUF_SIZE && next == slot + k + 1 < BUF_SIZE && k <= MAX_COUNT
    ensures buf[slot := k][..next] == buf[..slot] + [k] + buf[slot + 1..next]
    ensures buf[slot := k][next + 1..] == buf[next + 1..]
  {
  }

  /** The 8-bit value of i - 1. */
  function Less1(i: nat): byte { (i + 255) % 256 }

  /** The counting loop of host2qname, in place. Each slot is visited twice: first it is
      marked, so that the search does not stop on its own dot, then it gets the count. It goes
      on for ever exactly when some piece is too long for the counter. */
  method CountLoop(buf: array<byte>, ghost split: bytes, size: nat) returns (lastDot: nat, forever: bool)
    requires buf.Length == BUF_SIZE && Laid(buf[..], split) && size == |split|
    modifies buf
    ensures forever <==> !Countable(UpToNul(split))
    ensures !forever ==> lastDot < buf.Length && buf[..lastDot + 1] == Wire(UpToNul(split))
  {
    hide UpToNul, Wire, Countable, PieceLength, Counting, Laid, PieceFrom, Less1;
    ghost var orig := buf[..];
    lastDot := 0;
    StartCounting(orig, split);
    while lastDot < size
      invariant buf.Length == BUF_SIZE
      invariant if size == 0 then lastDot == 0 && buf[..] == orig
                else lastDot < size < SPLIT_LIMIT && Counting(buf[..], orig, split, lastDot)
      decreases size - lastDot, if buf[lastDot] == VISITED then 0 else 1
    {
      ghost var before := buf[..];
      ghost var piece := PieceFrom(split, lastDot);
      ScanFrom(before, orig, split, lastDot);
      var i;
      i, forever := CountPiece(buf, lastDot, piece);
      if forever {
        return;
      }
      VisitDone(before, orig, split, lastDot);
      buf[lastDot] := Less1(i);
      assert buf[..] == before[lastDot := Less1(i)];
      lastDot := lastDot + i;
      if buf[lastDot] == 0 {
        return;
      }
      if buf[lastDot + 1] == 0 {
        ghost var marked := buf[..];
        buf[lastDot] := 0;
        assert buf[..] == marked[lastDot := 0];
        return;
      }
    }
    forever := false;
  }

  function PieceFrom(split: bytes, slot: nat): bytes {
    if slot > |split| then [] else
      var t := UpToNul(split[slot..]);
      if PieceLength(t) <= |t| then t[..PieceLength(t)] else []
  }

  /** What the inner loop may assume of a slot. */
  lemma ScanFrom(buf: bytes, orig: bytes, split: bytes, slot: nat)
    requires Counting(buf, orig, split, slot)
    ensures slot < |split| && |buf| == BUF_SIZE
    ensures var piece := PieceFrom(split, slot);
            && slot + 2 + |piece| < BUF_SIZE && (buf[slot] == VISITED && |piece| > MAX_COUNT ==> !Countable(UpToNul(split)))
            && (buf[slot] == DOT || buf[slot] == 0 ||
                (&& buf[slot] == VISITED && buf[slot + 1..slot + 1 + |piece|] == piece
                 && NoDot(piece) && 0 !in piece
                 && (buf[slot + 1 + |piece|] == DOT || buf[slot + 1 + |piece|] == 0)))
  {
    hide UpToNul, Wire, Countable, PieceLength, Counting, Laid;
    Slot(buf, orig, split, slot);
    var t := UpToNul(split[slot..]);
    TextAt(buf, orig, split, slot, t);
    PieceShort(t);
    PieceAt(buf, slot, t, PieceLength(t));
    if buf[slot] == VISITED { SecondVisit(buf, orig, split, slot, t, PieceLength(t)); }
  }

  /** The first time the counter stays 0; the second time it passes the slot and the piece. */
  function Counter(buf: bytes, split: bytes, slot: nat): nat
    requires slot < |buf|
  {
    if buf[slot] == DOT || buf[slot] == 0 then 0 else |PieceFrom(split, slot)| + 1
  }

  lemma Less1Is(k: nat)
    requires k <= MAX_COUNT
    ensures Less1(k + 1) == k && Less1(0) == VISITED
  {
  }

  /** After a pass of the counting loop: done, done once a last dot is cleared, or going on. */
  ghost predicate PassEnds(b: bytes, orig: bytes, split: bytes, next: nat) {
    && next + 1 < |b| == BUF_SIZE && (b[next] == 0 || b[next + 1] == 0 ==> Countable(UpToNul(split)))
    && (b[next] == 0 ==> b[..next + 1] == Wire(UpToNul(split)))
    && (b[next] != 0 && b[next + 1] == 0 ==> b[next := 0][..next + 1] == Wire(UpToNul(split)))
    && (b[next] != 0 && b[next + 1] != 0 ==> next < |split| && Counting(b, orig, split, next))
  }

  lemma VisitDone(buf: bytes, orig: bytes, split: bytes, slot: nat)
    requires Counting(buf, orig, split, slot) && slot < |buf|
    requires buf[slot] == VISITED ==> |PieceFrom(split, slot)| <= MAX_COUNT
    ensures slot < |buf| == BUF_SIZE
    ensures var i := Counter(buf, split, slot);
            i <= MAX_COUNT + 1 && PassEnds(buf[slot := Less1(i)], orig, split, slot + i)
    ensures buf[slot] != VISITED <==> Counter(buf, split, slot) == 0
    ensures Less1(0) == VISITED
  {
    Slot(buf, orig, split, slot);
    if buf[slot] == VISITED {
      hide *;
      SecondDone(buf, orig, split, slot);
      CounterIs(buf, split, slot);
      Less1Is(|PieceFrom(split, slot)|);
    } else {
      hide *;
      FirstDone(buf, orig, split, slot);
      Less1Is(0);
    }
  }

  lemma FirstDone(buf: bytes, orig: bytes, split: bytes, slot: nat)
    requires Counting(buf, orig, split, slot) && slot < |buf| == BUF_SIZE && buf[slot] != VISITED
    ensures Counter(buf, split, slot) == 0 && PassEnds(buf[slot := VISITED], orig, split, slot)
  {
    hide UpToNul, Wire, Countable, PieceLength, Counting, Laid;
    Slot(buf, orig, split, slot);
    FirstVisit(buf, orig, split, slot);
    if buf[slot + 1] == 0 { ClearFirst(buf); }
  }

  lemma ClearFirst(buf: bytes)
    requires buf != []
    ensures buf[0 := VISITED][0 := 0][..1] == [0]
  {
  }

  lemma CounterIs(buf: bytes, split: bytes, slot: nat)
    requires slot < |buf| && buf[slot] == VISITED
    ensures Counter(buf, split, slot) == |PieceFrom(split, slot)| + 1
  {
  }

  /** The two ways a second visit can find its piece ended. */
  lemma SecondFacts(buf: bytes, orig: bytes, split: bytes, slot: nat, t: bytes, k: nat)
    requires Counting(buf, orig, split, slot) && slot < |buf| == BUF_SIZE && buf[slot] == VISITED
    requires slot < |split| && t == UpToNul(split[slot..]) && k == PieceLength(t) <= MAX_COUNT
    ensures k <= |t| && slot + k + 2 < BUF_SIZE
    ensures buf[slot + 1..slot + 1 + k] == t[..k]
    ensures if k + 1 < |t|
            then buf[slot + k + 1] != 0 && buf[slot + k + 2] != 0 && Counting(buf[slot := k], orig, split, slot + k + 1)
            else (buf[slot + k + 1] == 0 || buf[slot + k + 2] == 0)
                 && Wire(UpToNul(split)) == buf[..slot] + [k] + t[..k] + [0] && Countable(UpToNul(split))
  {
    hide UpToNul, Wire, Countable, PieceLength, Counting, Laid;
    Slot(buf, orig, split, slot);
    PieceShort(t);
    TextAt(buf, orig, split, slot, t);
    PieceAt(buf, slot, t, k);
    SecondVisit(buf, orig, split, slot, t, k);
    if k + 1 < |t| { assert t[k + 1] in t; }
  }

  lemma SecondDone(buf: bytes, orig: bytes, split: bytes, slot: nat)
    requires Counting(buf, orig, split, slot) && slot < |buf| == BUF_SIZE && buf[slot] == VISITED
    requires |PieceFrom(split, slot)| <= MAX_COUNT
    ensures var k := |PieceFrom(split, slot)|; PassEnds(buf[slot := k], orig, split, slot + k + 1)
  {
    hide UpToNul, Wire, Countable, PieceLength, Counting, Laid, PassEnds, PieceFrom;
    Slot(buf, orig, split, slot);
    var t := UpToNul(split[slot..]);
    var k := PieceLength(t);
    PieceShort(t);
    PieceFromIs(split, slot, t, k);
    SecondFacts(buf, orig, split, slot, t, k);
    if k + 1 < |t| {
      GoesOn(buf, orig, split, slot, k);
    } else {
      IsLast(buf, orig, split, slot, k, t[..k]);
    }
  }

  lemma PieceFromIs(split: bytes, slot: nat, t: bytes, k: nat)
    requires slot <= |split| && t == UpToNul(split[slot..]) && k == PieceLength(t) <= |t|
    ensures PieceFrom(split, slot) == t[..k] && |PieceFrom(split, slot)| == k
  {
  }

  lemma GoesOn(buf: bytes, orig: bytes, split: bytes, slot: nat, k: nat)
    requires slot + k + 2 < |buf| == BUF_SIZE && k <= MAX_COUNT
    requires buf[slot + k + 1] != 0 && buf[slot + k + 2] != 0
    requires Counting(buf[slot := k], orig, split, slot + k + 1)
    ensures PassEnds(buf[slot := k], orig, split, slot + k + 1)
  {
    hide UpToNul, Wire, Countable, Laid;
  }

  lemma IsLast(buf: bytes, orig: bytes, split: bytes, slot: nat, k: nat, piece: bytes)
    requires slot + k + 2 < |buf| == BUF_SIZE && |piece| == k <= MAX_COUNT
    requires buf[slot + k + 1] == 0 || buf[slot + k + 2] == 0
    requires buf[slot + 1..slot + 1 + k] == piece && Countable(UpToNul(split))
    requires Wire(UpToNul(split)) == buf[..slot] + [k] + piece + [0]
    ensures PassEnds(buf[slot := k], orig, split, slot + k + 1)
  {
    hide UpToNul, Wire, Countable, Laid, Counting;
    Counted(buf, slot, k, piece);
  }

  /** The count and the piece, closed by a zero in place of what follows. */
  lemma Counted(buf: bytes, slot: nat, k: nat, piece: bytes)
    requires slot + k + 1 < |buf| && |piece| == k <= MAX_COUNT && buf[slot + 1..slot + 1 + k] == piece
    ensures var b := buf[slot := k]; var next := slot + k + 1;
            && b[next := 0][..next + 1] == buf[..slot] + [k] + piece + [0]
            && (b[next] == 0 ==> b[..next + 1] == buf[..slot] + [k] + piece + [0])
  {
  }

  lemma Slot(buf: bytes, orig: bytes, split: bytes, slot: nat)
    requires Counting(buf, orig, split, slot)
    ensures slot < |split| < SPLIT_LIMIT && |buf| == BUF_SIZE
    ensures buf[slot] == VISITED || buf[slot] == DOT || buf[slot] == 0
  {
  }

  lemma StartCounting(orig: bytes, split: bytes)
    requires Laid(orig, split)
    ensures |orig| == BUF_SIZE && |split| < SPLIT_LIMIT && orig[..1] == [0]
    ensures split == [] ==> Wire(UpToNul(split)) == [0] && Countable(UpToNul(split))
    ensures split != [] ==> Counting(orig, orig, split, 0)
  {
    assert split[0..] == split && orig[..0] == [];
  }

  // ---------- host2qname ----------

  lemma PrefixDot(t: bytes, n: nat)
    requires n <= |t|
    ensures FindDot(t[..n]) == (match FindDot(t)
                                case None => None
                                case Some(k) => if k < n then Some(k) else None)
  {
    var p := t[..n];
    assert forall e :: 0 <= e < n ==> p[e] == t[e];
    if FindDot(t).Some? && FindDot(t).value < n {
      FindDotIs(p, FindDot(t).value);
    }
  }

  lemma {:induction false} CountablePrefix(t: bytes, n: nat)
    requires n <= |t| && Countable(t)
    ensures Countable(t[..n])
    decreases |t|
  {
    hide FindDot;
    PrefixDot(t, n);
    if FindDot(t[..n]).Some? {
      var k := FindDot(t).value;
      CountablePrefix(t[k + 1..], n - k - 1);
      assert t[..n][k + 1..] == t[k + 1..][..n - k - 1];
    }
  }

  lemma ShortIsCountable(s: bytes)
    requires InnerShort(s) && |LastPiece(s)| <= MAX_COUNT
    ensures Countable(s)
    decreases |s|
  {
    if FindDot(s).Some? {
      ShortIsCountable(s[FindDot(s).value + 1..]);
    }
  }

  // ---------- which hosts are encoded as they should be ----------

  /** Splitting makes every label fit its length byte exactly when the last one does: that one
      is not split. */
  lemma SplitFits(host: bytes)
    ensures InnerShort(SplitHost(host)) && |LastPiece(SplitHost(host))| <= MAX_LABEL <==> |LastPiece(host)| <= MAX_LABEL
  {
    SplitInnerShort(host);
    SplitKeepsBytes(host);
  }

  lemma {:induction false} InnerShortPrefix(t: bytes, n: nat)
    requires n <= |t| && InnerShort(t)
    ensures InnerShort(t[..n])
    decreases |t|
  {
    hide FindDot;
    PrefixDot(t, n);
    if FindDot(t[..n]).Some? {
      var k := FindDot(t).value;
      InnerShortPrefix(t[k + 1..], n - k - 1);
      assert t[..n][k + 1..] == t[k + 1..][..n - k - 1];
    }
  }

  lemma {:induction false} CountableIfLast(s: bytes)
    requires InnerShort(s)
    ensures Countable(s) <==> |LastPiece(s)| <= MAX_COUNT
    decreases |s|
  {
    hide FindDot;
    if FindDot(s).Some? { CountableIfLast(s[FindDot(s).value + 1..]); }
  }

  /** host2qname ends exactly when the last label, of what comes before a zero byte, has at
      most 254 bytes. */
  lemma EndsExactly(host: bytes)
    ensures var t := UpToNul(SplitHost(host)); Countable(t) <==> |LastPiece(t)| <= MAX_COUNT
    ensures 0 !in host ==> (Countable(UpToNul(SplitHost(host))) <==> |LastPiece(host)| <= MAX_COUNT)
  {
    hide SplitHost, UpToNul, LastPiece, InnerShort, Countable;
    var s := SplitHost(host);
    SplitInnerShort(host);
    InnerShortPrefix(s, |UpToNul(s)|);
    assert s[..|UpToNul(s)|] == UpToNul(s);
    CountableIfLast(UpToNul(s));
    if 0 !in host {
      SplitNoNul(host);
      NoZero(s);
      SplitKeepsBytes(host);
    }
  }

  lemma {:induction false} InWithoutDots(s: bytes, b: byte)
    requires b != DOT
    ensures b in WithoutDots(s) <==> b in s
  {
    if s != [] {
      InWithoutDots(s[1..], b);
      assert s == [s[0]] + s[1..];
    }
  }

  lemma SplitNoNul(host: bytes)
    ensures 0 in SplitHost(host) <==> 0 in host
  {
    SplitKeepsBytes(host);
    InWithoutDots(host, 0);
    InWithoutDots(SplitHost(host), 0);
  }

  lemma SplitCountable(host: bytes)
    requires |LastPiece(host)| <= MAX_COUNT
    ensures Countable(UpToNul(SplitHost(host)))
  {
    SplitInnerShort(host);
    SplitKeepsBytes(host);
    hide SplitHost, UpToNul, LastPiece, InnerShort, Countable;
    var s := SplitHost(host);
    ShortIsCountable(s);
    CountablePrefix(s, |UpToNul(s)|);
    assert s[..|UpToNul(s)|] == UpToNul(s);
  }

  /** host2qname: the size of the result, or -1; or the counting goes on for ever. */
  method Host2QName(host: bytes) returns (ret: int, result: bytes, forever: bool)
    ensures |SplitHost(host)| >= 2048 ==> ret == -1 && result == [] && !forever
    ensures |SplitHost(host)| < 2048 ==> (forever <==> !Countable(UpToNul(SplitHost(host))))
    ensures |SplitHost(host)| < 2048 && !forever ==> result == Wire(UpToNul(SplitHost(host))) && ret == |result| > 0
  {
    hide SplitHost, UpToNul, Countable, Wire, LastPiece;
    result := [];
    var split := SplitLoop(host);
    if |split| >= SPLIT_LIMIT {
      return -1, [], false;
    }
    var buf := new byte[BUF_SIZE](_ => 0);
    forall p | 0 <= p < |split| {
      buf[p + 1] := split[p];
    }
    assert buf[..][1..1 + |split|] == split;
    var lastDot;
    lastDot, forever := CountLoop(buf, split, |split|);
    if forever {
      return 0, [], true;
    }
    result := buf[..lastDot + 1];
    ret := lastDot + 1;
  }

  // ---------- the inner loop, when it does not end ----------

  predicate Stop(buf: bytes, slot: nat, i: byte)
    requires slot + 256 <= |buf|
  {
    buf[slot + i] == DOT || buf[slot + i] == 0
  }

  /** The 8-bit counter after n passes. */
  function CounterAfter(buf: bytes, slot: nat, n: nat): byte
    requires slot + 256 <= |buf|
  {
    if n == 0 then 0 else
      var i := CounterAfter(buf, slot, n - 1);
      if Stop(buf, slot, i) then i else (i as int + 1) % 256
  }

  lemma {:induction false} CountsUp(buf: bytes, slot: nat, n: nat, e: nat)
    requires slot + 256 <= |buf| && n <= e < 256 && forall i :: 0 <= i < e ==> !Stop(buf, slot, i)
    ensures CounterAfter(buf, slot, n) == n
  {
    if n > 0 { CountsUp(buf, slot, n - 1, e); }
  }

  lemma {:induction false} NeverStops(buf: bytes, slot: nat, n: nat)
    requires slot + 256 <= |buf| && forall i :: 0 <= i < 256 ==> !Stop(buf, slot, i)
    ensures !Stop(buf, slot, CounterAfter(buf, slot, n))
  {
    if n > 0 { NeverStops(buf, slot, n - 1); }
  }

  lemma LeastStop(buf: bytes, slot: nat, e: nat) returns (f: nat)
    requires slot + 256 <= |buf| && e < 256 && Stop(buf, slot, e)
    ensures f <= e && Stop(buf, slot, f) && forall i :: 0 <= i < f ==> !Stop(buf, slot, i)
  {
    f := 0;
    while !Stop(buf, slot, f)
      invariant f <= e && forall i :: 0 <= i < f ==> !Stop(buf, slot, i)
      decreases e - f
    {
      f := f + 1;
    }
  }

  /** The inner loop ends exactly when a dot or a zero is among the 256 bytes its counter can
      reach; a longer label without either keeps it going for ever. */
  lemma ScanEndsExactly(buf: bytes, slot: nat)
    requires slot + 256 <= |buf|
    ensures (exists n: nat :: Stop(buf, slot, CounterAfter(buf, slot, n)))
            <==> '.' as int in buf[slot..slot + 256] || 0 in buf[slot..slot + 256]
  {
    var reach := buf[slot..slot + 256];
    assert forall e: nat :: e < 256 ==> (Stop(buf, slot, e) <==> reach[e] == '.' as int || reach[e] == 0);
    if e: nat :| e < 256 && Stop(buf, slot, e) {
      var f := LeastStop(buf, slot, e);
      CountsUp(buf, slot, f, f);
      assert Stop(buf, slot, CounterAfter(buf, slot, f));
    } else {
      forall n: nat ensures !Stop(buf, slot, CounterAfter(buf, slot, n)) {
        NeverStops(buf, slot, n);
      }
    }
  }

  // ---------- names as lists of labels ----------

  predicate IsLabel(l: bytes) {
    0 < |l| <= MAX_LABEL && NoDot(l) && 0 !in l
  }

  predicate AreLabels(labels: seq<bytes>) {
    forall i :: 0 <= i < |labels| ==> IsLabel(labels[i])
  }

  /** Labels with dots between them. */
  function HostOf(labels: seq<bytes>): bytes {
    if labels == [] then [] else if |labels| == 1 then labels[0]
    else labels[0] + [DOT] + HostOf(labels[1..])
  }

  /** Labels with a dot after each. */
  function FullName(labels: seq<bytes>): bytes {
    if labels == [] then [] else labels[0] + [DOT] + FullName(labels[1..])
  }

  /** Each label after its length. */
  function LabelBytes(labels: seq<bytes>): bytes
    requires AreLabels(labels)
  {
    if labels == [] then [] else
      assert IsLabel(labels[0]);
      [|labels[0]|] + labels[0] + LabelBytes(labels[1..])
  }

  /** Section 3.1 of RFC 1035: the labels, and the root's zero. */
  function WireName(labels: seq<bytes>): bytes
    requires AreLabels(labels)
  {
    LabelBytes(labels) + [0]
  }

  lemma WireNameStep(labels: seq<bytes>)
    requires AreLabels(labels) && labels != []
    ensures IsLabel(labels[0]) && WireName(labels) == [|labels[0]|] + labels[0] + WireName(labels[1..])
  {
    assert IsLabel(labels[0]);
    Seqs.JoinFour([], [|labels[0]|] + labels[0], LabelBytes(labels[1..]), [0]);
    Seqs.JoinFour([|labels[0]|] + labels[0], [], LabelBytes(labels[1..]), [0]);
  }

  lemma NoZero(s: bytes)
    requires 0 !in s
    ensures UpToNul(s) == s
  {
  }

  lemma HostShape(labels: seq<bytes>, name: bytes)
    requires AreLabels(labels) && labels != [] && (name == HostOf(labels) || name == FullName(labels))
    ensures 0 !in name && name != [] && InnerShort(name) && |LastPiece(name)| <= MAX_LABEL
  {
    hide InnerShort, LastPiece, FindDot;
    assert IsLabel(labels[0]);
    var rest := labels[1..];
    if |labels| == 1 && name == HostOf(labels) {
      OneLabelShape(name);
    } else {
      var after := if name == FullName(labels) then FullName(rest) else HostOf(rest);
      PieceFirst(labels[0], after);
      assert name == labels[0] + [DOT] + after;
      if rest != [] {
        HostShape(rest, after);
      } else {
        EmptyShape();
      }
      ShapeStep(labels[0], after);
    }
  }

  lemma OneLabelShape(l: bytes)
    requires NoDot(l)
    ensures InnerShort(l) && LastPiece(l) == l
  {
  }

  lemma EmptyShape()
    ensures InnerShort([]) && LastPiece([]) == []
  {
  }

  lemma ShapeStep(l: bytes, rest: bytes)
    requires NoDot(l) && |l| <= MAX_LABEL && InnerShort(rest)
    ensures InnerShort(l + [DOT] + rest) && LastPiece(l + [DOT] + rest) == LastPiece(rest)
  {
    hide FindDot;
    PieceFirst(l, rest);
  }

  lemma {:induction false} WireOfLabels(labels: seq<bytes>, name: bytes)
    requires AreLabels(labels) && labels != [] && (name == HostOf(labels) || name == FullName(labels))
    ensures Countable(name) && Wire(name) == WireName(labels)
  {
    hide Wire, FindDot, Countable, InnerShort, LastPiece, WireName, LabelBytes;
    HostShape(labels, name);
    ShortIsCountable(name);
    var l, rest := labels[0], labels[1..];
    assert IsLabel(l) && NoDot(l);
    WireNameStep(labels);
    WireStep(name);
    if |labels| == 1 && name == HostOf(labels) {
      OneLabel(name);
      RootName();
    } else {
      var after := if name == FullName(labels) then FullName(rest) else HostOf(rest);
      PieceFirst(l, after);
      PieceIs(name, |l|);
      if rest != [] {
        HostShape(rest, after);
        WireOfLabels(rest, after);
      } else {
        RootName();
      }
    }
  }

  lemma RootName()
    ensures WireName([]) == [0] && FullName([]) == []
  {
  }

  lemma OneLabel(name: bytes)
    requires NoDot(name)
    ensures PieceLength(name) == |name| && name[..|name|] == name
  {
  }

  lemma PieceIs(t: bytes, k: nat)
    requires FindDot(t) == Some(k)
    ensures PieceLength(t) == k
  {
  }

  /** The name of a list of labels, with or without the last dot, is encoded as section 3.1
      of RFC 1035 has it. */
  lemma EncodesLabels(labels: seq<bytes>, name: bytes)
    requires AreLabels(labels) && labels != [] && (name == HostOf(labels) || name == FullName(labels))
    ensures |LastPiece(name)| <= MAX_COUNT && SplitHost(name) == name
    ensures Countable(UpToNul(name)) && Wire(UpToNul(name)) == WireName(labels)
  {
    HostShape(labels, name);
    SplitUnchanged(name);
    NoZero(name);
    WireOfLabels(labels, name);
  }
}
