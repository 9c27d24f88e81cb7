/** The end of a chunked body: transfer_mem_until with the one pattern it is used for, and
    when its normal return means that the pattern was relayed, whatever the fragmentation. */
module Closing {
  import opened Wrappers
  import opened Strings
  import opened Kmp
  import opened Transfer

  const END := "\r\n\r\n"

  // ---------- fresh starts of this pattern ----------

  /** The matcher starts afresh at a CR that does not follow a CRLF. */
  predicate Fresh(all: string, i: nat)
    requires i < |all|
  {
    all[i] == '\r' && !(i >= 2 && all[i - 2..i] == CRLF)
  }

  lemma FreshIs(t: string)
    requires t != ""
    ensures Overlap(END, t) == 1 <==> Fresh(t, |t| - 1)
  {
    hide Overlap, Border;
    var n := |t| - 1;
    if t[n] != '\r' {
      NotOne(t);
    } else if Fresh(t, n) {
      OneBorder(t);
    } else {
      ThreeBorder(t);
    }
  }

  lemma NotOne(t: string)
    requires t != ""
    ensures Overlap(END, t) == 1 ==> t[|t| - 1] == '\r'
  {
    hide Longest;
    if Overlap(END, t) == 1 { BorderTail(END, t, 1); }
  }

  lemma OneBorder(t: string)
    requires t != "" && Fresh(t, |t| - 1)
    ensures Overlap(END, t) == 1
  {
    hide Longest, Overlap;
    assert t[|t| - 1..] == END[..1];
    assert Border(END, t, 1);
    forall l: nat | Border(END, t, l) ensures l <= 1 {
      if l > 1 { BorderTail(END, t, l); }
      if l == 3 { CrlfBefore(t); }
    }
    OverlapIs(END, t, 1);
  }

  lemma ThreeBorder(t: string)
    requires |t| >= 3 && t[|t| - 3..|t| - 1] == CRLF && t[|t| - 1] == '\r'
    ensures Overlap(END, t) != 1
  {
    hide Longest;
    assert t[|t| - 3..] == CRLF + "\r" == END[..3];
    assert Border(END, t, 3);
  }

  lemma CrlfBefore(t: string)
    requires Border(END, t, 3)
    ensures t[|t| - 3..|t| - 1] == CRLF
  {
    assert t[|t| - 3..|t| - 1] == t[|t| - 3..][..2];
  }

  lemma FreshPrefix(all: string, i: nat)
    requires i < |all|
    ensures Fresh(all[..i + 1], i) <==> Fresh(all, i)
  {
    if i >= 2 { assert all[..i + 1][i - 2..i] == all[i - 2..i]; }
  }

  /** The last fresh start at or after `n` and before `k`, counted from `n`. */
  lemma LastStartLast(all: string, n: nat, k: nat, before: int)
    requires n < k <= |all|
    ensures LastStart(END, all[..n], all[n..k], before)
            == if Fresh(all, k - 1) then k - 1 - n else LastStart(END, all[..n], all[n..k - 1], before)
  {
    hide Overlap, Longest, Border;
    var text := all[n..k];
    assert text[..|text| - 1] == all[n..k - 1];
    assert all[..n] + text == all[..k];
    FreshIs(all[..k]);
    FreshPrefix(all, k - 1);
  }

  lemma {:induction false} NoneFresh(all: string, n: nat, k: nat, before: int)
    requires n <= k <= |all| && forall i :: n <= i < k ==> !Fresh(all, i)
    ensures LastStart(END, all[..n], all[n..k], before) == before
    decreases k
  {
    if n < k {
      hide LastStart;
      LastStartLast(all, n, k, before);
      NoneFresh(all, n, k - 1, before);
    }
  }

  lemma {:induction false} LastFresh(all: string, n: nat, k: nat, before: int, i: nat)
    requires n <= i < k <= |all| && Fresh(all, i) && forall e :: i < e < k ==> !Fresh(all, e)
    ensures LastStart(END, all[..n], all[n..k], before) == i - n
    decreases k
  {
    hide LastStart;
    LastStartLast(all, n, k, before);
    if i < k - 1 { LastFresh(all, n, k - 1, before, i); }
  }

  /** Either nothing is fresh from `n` to `k`, or there is a last fresh start. */
  lemma {:induction false} SomeFresh(all: string, n: nat, k: nat) returns (i: nat)
    requires n <= k <= |all|
    ensures n <= i <= k
    ensures i < k ==> Fresh(all, i) && forall e :: i < e < k ==> !Fresh(all, e)
    ensures i == k ==> forall e :: n <= e < k ==> !Fresh(all, e)
    decreases k
  {
    if n == k {
      i := k;
    } else if Fresh(all, k - 1) {
      i := k - 1;
    } else {
      i := SomeFresh(all, n, k - 1);
      if i == k - 1 { i := k; }
    }
  }

  lemma TwoLineEnds(all: string, a: int)
    ensures 0 <= a && a + 4 <= |all| && all[a..a + 2] == CRLF && all[a + 2..a + 4] == CRLF ==> OccursAt(all, END, a)
  {
    if 0 <= a && a + 4 <= |all| {
      assert all[a..a + 4] == all[a..a + 2] + all[a + 2..a + 4];
    }
  }

  /** The first occurrence begins with a fresh start, and has no other. */
  lemma FirstFacts(all: string)
    requires Find(all, END).Some?
    ensures var q := Find(all, END).value;
            && FirstEnd(all, END) == q + 4 <= |all| && Fresh(all, q)
            && !Fresh(all, q + 1) && !Fresh(all, q + 2) && !Fresh(all, q + 3) && all[q + 1] == '\n'
  {
    var q: int := Find(all, END).value;
    OccursByte(all, END, q, 0);
    OccursByte(all, END, q, 1);
    OccursByte(all, END, q, 2);
    OccursByte(all, END, q, 3);
    assert all[q..q + 2] == CRLF;
    TwoLineEnds(all, q - 2);
  }

  // ---------- streams that hold the pattern ----------

  /** The first CRLFCRLF is reached from here under every fragmentation: it is being
      completed with a start that is waited for, or it comes at once, or after one byte. */
  predicate Reaches(all: string, n: nat, start: int)
    requires Find(all, END).Some? && n <= |all|
  {
    var q := Find(all, END).value;
    || (q < n && (start <= 1 || q + 4 == n + 1))
    || q == n
    || (q == n + 1 && (start <= 1 || Fresh(all, n)))
  }

  /** One more read that does not bring the end. */
  lemma ReachStep(all: string, n: nat, start: nat, size: nat, q: nat)
    requires n <= q && q + 4 <= |all| && Fresh(all, q) && !Fresh(all, q + 1) && !Fresh(all, q + 2) && !Fresh(all, q + 3)
    requires q == n || (q == n + 1 && (start <= 1 || Fresh(all, n)))
    requires 1 <= size <= LOAD_SIZE && n + size < q + 4
    ensures var next := LastStart(END, all[..n], all[n..n + size], start);
            && next >= 0 && KeepsWaiting(size, next + n, n, 4)
            && (if q < n + size then next <= 1 else q == n + size)
  {
    hide LastStart, Fresh, KeepsWaiting;
    if n + size > q {
      LastFresh(all, n, n + size, start, q);
      WaitExact(size, q - n, n, 4);
    } else if Fresh(all, n) {
      LastFresh(all, n, n + 1, start, n);
      WaitExact(1, 0, n, 4);
    } else {
      NoneFresh(all, n, n + 1, start);
      WaitExact(1, start, n, 4);
    }
  }

  lemma ReachGoesOn(all: string, n: nat, start: nat, size: nat)
    requires Find(all, END).Some? && n <= Find(all, END).value && Reaches(all, n, start)
    requires 1 <= size <= LOAD_SIZE && n + size < FirstEnd(all, END) <= |all|
    ensures var next := LastStart(END, all[..n], all[n..n + size], start);
            next >= 0 && KeepsWaiting(size, next + n, n, 4) && Reaches(all, n + size, next)
  {
    hide Find, FindFrom, LastStart, Fresh, KeepsWaiting;
    FirstFacts(all);
    ReachStep(all, n, start, size, Find(all, END).value);
  }

  lemma {:induction false} ReachSound(all: string, n: nat, start: nat, r: Outcome)
    requires Find(all, END).Some? && n < FirstEnd(all, END) && Reaches(all, n, start)
    requires CanEnd(END, all, n, start, r)
    ensures r == Done(FirstEnd(all, END))
    decreases |all| - n
  {
    hide Find, FindFrom, FirstEnd, LastStart, Fresh, KeepsWaiting, Contains, CanEnd, CanPass, Reaches;
    FirstFacts(all);
    if Find(all, END).value < n {
      ReachStraddle(all, n, start);
      StraddleEnds(END, all, n, start, r);
    } else {
      var size := SomeRead(END, all, n, start, r);
      NotYet(END, all, n + size);
      if n + size < FirstEnd(all, END) {
        ReachGoesOn(all, n, start, size);
        PassedOn(END, all, n, start, size, r);
        ReachSound(all, n + size, LastStart(END, all[..n], all[n..n + size], start), r);
      } else {
        PassedEnd(END, all, n, start, size, r);
      }
    }
  }

  lemma PassedOn(p: string, all: string, n: nat, start: nat, size: nat, r: Outcome)
    requires p != "" && 1 <= size && n + size <= |all| && CanPass(p, all, n, start, size, r) && !Contains(all[..n + size], p)
    requires KeepsWaiting(size, LastStart(p, all[..n], all[n..n + size], start) + n, n, |p|)
    ensures CanEnd(p, all, n + size, LastStart(p, all[..n], all[n..n + size], start), r)
  {
  }

  lemma PassedEnd(p: string, all: string, n: nat, start: nat, size: nat, r: Outcome)
    requires p != "" && 1 <= size && n + size <= |all| && CanPass(p, all, n, start, size, r) && Contains(all[..n + size], p)
    ensures Find(all, p).Some? && r == Done(FirstEnd(all, p))
  {
  }

  lemma ReachStraddle(all: string, n: nat, start: nat)
    requires Find(all, END).Some? && Find(all, END).value < n <= |all| && Reaches(all, n, start)
    ensures start <= 1 || n + 1 == FirstEnd(all, END)
  {
  }

  lemma SomeRead(p: string, all: string, n: nat, start: int, r: Outcome) returns (size: nat)
    requires p != "" && n < |all| && CanEnd(p, all, n, start, r)
    ensures 1 <= size <= LOAD_SIZE && n + size <= |all| && CanPass(p, all, n, start, size, r)
  {
    size :| 1 <= size <= LOAD_SIZE && n + size <= |all| && CanPass(p, all, n, start, size, r);
  }

  /** A read of one byte that is not a fresh start, after a start further in: it is taken for
      the end of the pattern. */
  lemma OneByteStops(all: string, n: nat, start: nat)
    requires n < |all| && !Contains(all[..n + 1], END) && !Fresh(all, n) && 2 <= start < SIZE_RANGE / 2
    ensures CanEnd(END, all, n, start, Done(n + 1))
  {
    hide Find, FindFrom, LastStart, Fresh, KeepsWaiting, Contains, CanEnd;
    NoneFresh(all, n, n + 1, start);
    WaitExact(1, start, n, 4);
    WrapSmall(start + 4);
    assert CanPass(END, all, n, start, 1, Done(n + 1));
    Passes(END, all, n, start, 1, Done(n + 1));
  }

  lemma Passes(p: string, all: string, n: nat, start: int, size: nat, r: Outcome)
    requires p != "" && 1 <= size <= LOAD_SIZE && n + size <= |all| && CanPass(p, all, n, start, size, r)
    ensures CanEnd(p, all, n, start, r)
  {
  }

  /** A read that goes on waiting. */
  lemma GoesOn(all: string, n: nat, start: nat, size: nat, next: int, r: Outcome)
    requires 1 <= size <= LOAD_SIZE && n + size <= |all| && !Contains(all[..n + size], END)
    requires next == LastStart(END, all[..n], all[n..n + size], start) && 0 <= next <= size && size - next < 4
    requires CanEnd(END, all, n + size, next, r)
    ensures CanEnd(END, all, n, start, r)
  {
    hide Find, FindFrom, LastStart, KeepsWaiting, Contains, CanEnd;
    WaitExact(size, next, n, 4);
    assert CanPass(END, all, n, start, size, r);
    Passes(END, all, n, start, size, r);
  }

  /** Otherwise some fragmentation makes the loop stop before the pattern's end. */
  lemma {:induction false} ReachFails(all: string, n: nat, start: nat) returns (r: Outcome)
    requires Find(all, END).Some? && n < FirstEnd(all, END) && !Reaches(all, n, start)
    requires start < SIZE_RANGE / 2 && |all| < SIZE_RANGE / 2
    ensures CanEnd(END, all, n, start, r) && r.Done? && r.n < FirstEnd(all, END)
    decreases |all| - n
  {
    FirstFacts(all);
    var q := Find(all, END).value;
    hide Find, FindFrom, LastStart, KeepsWaiting, Contains, CanEnd;
    if q < n {
      StraddleFails(END, all, n, start);
      r := Done(n + 1);
    } else if q == n + 1 {
      NotYet(END, all, n + 1);
      OneByteStops(all, n, start);
      r := Done(n + 1);
    } else if q - n + 1 <= LOAD_SIZE {
      r := Done(q + 2);
      StartThenByte(all, n, start, q);
    } else {
      r := ReachFailsLater(all, n, start);
    }
  }

  /** A read up to the pattern's first byte, and then one byte. */
  lemma StartThenByte(all: string, n: nat, start: nat, q: nat)
    requires Find(all, END) == Some(q) && n + 2 <= q && q - n + 1 <= LOAD_SIZE
    requires start < SIZE_RANGE / 2 && |all| < SIZE_RANGE / 2
    ensures CanEnd(END, all, n, start, Done(q + 2))
  {
    hide Find, FindFrom, LastStart, KeepsWaiting, Contains, CanEnd, Fresh;
    FirstFacts(all);
    NotYet(END, all, q + 1);
    NotYet(END, all, q + 2);
    LastFresh(all, n, q + 1, start, q);
    OneByteStops(all, q + 1, q - n);
    GoesOn(all, n, start, q - n + 1, q - n, Done(q + 2));
  }

  lemma {:induction false} ReachFailsLater(all: string, n: nat, start: nat) returns (r: Outcome)
    requires Find(all, END).Some? && n + 2 < Find(all, END).value
    requires start < SIZE_RANGE / 2 && |all| < SIZE_RANGE / 2
    ensures CanEnd(END, all, n, start, r) && r.Done? && r.n < FirstEnd(all, END)
    decreases |all| - n, 0
  {
    hide Find, FindFrom, LastStart, KeepsWaiting, Contains, CanEnd;
    NotYet(END, all, n + 1);
    if Fresh(all, n) {
      LastFresh(all, n, n + 1, start, n);
      r := ReachFails(all, n + 1, 0);
      GoesOn(all, n, start, 1, 0, r);
    } else if start <= 1 {
      NoneFresh(all, n, n + 1, start);
      r := ReachFails(all, n + 1, start);
      GoesOn(all, n, start, 1, start, r);
    } else {
      OneByteStops(all, n, start);
      r := Done(n + 1);
    }
  }

  // ---------- streams that do not ----------

  /** Nothing ends the loop: at most three bytes are left, and the last fresh start is the
      first byte of its read. */
  ghost predicate Stays(all: string, n: nat, start: int)
    requires n <= |all|
  {
    |all| - n <= 3 && LastStart(END, all[..n], all[n..], start) == 0
  }

  lemma {:induction false} StaySound(all: string, n: nat, start: nat, r: Outcome)
    requires n <= |all| && !Contains(all, END) && Stays(all, n, start) && CanEnd(END, all, n, start, r)
    ensures r == Stalled(|all|)
    decreases |all| - n
  {
    hide Find, FindFrom, LastStart, Fresh, KeepsWaiting, Contains, CanEnd;
    if n == |all| {
      NoneFresh(all, n, n, start);
      EndOfStream(END, all, start, r);
    } else {
      var size := SomeRead(END, all, n, start, r);
      StayStep(all, n, start, size);
      StaySound(all, n + size, 0, r);
    }
  }

  /** The only fresh start left, if any, is the next byte. */
  lemma StayFresh(all: string, n: nat, start: nat)
    requires n <= |all| && Stays(all, n, start)
    ensures forall e :: n < e < |all| ==> !Fresh(all, e)
    ensures n == |all| || !Fresh(all, n) ==> start == 0
  {
    hide LastStart, Fresh;
    assert all[n..] == all[n..|all|];
    var i := SomeFresh(all, n, |all|);
    if i < |all| { LastFresh(all, n, |all|, start, i); } else { NoneFresh(all, n, |all|, start); }
  }

  lemma StayStep(all: string, n: nat, start: nat, size: nat)
    requires !Contains(all, END) && 1 <= size && n + size <= |all| && Stays(all, n, start)
    ensures LastStart(END, all[..n], all[n..n + size], start) == 0 && KeepsWaiting(size, n, n, 4)
    ensures !Contains(all[..n + size], END) && Stays(all, n + size, 0)
  {
    hide LastStart, Fresh, KeepsWaiting;
    StayFresh(all, n, start);
    if Fresh(all, n) { LastFresh(all, n, n + size, start, n); } else { NoneFresh(all, n, n + size, start); }
    WaitExact(size, 0, n, 4);
    NoneFresh(all, n + size, |all|, 0);
    assert all[n + size..] == all[n + size..|all|];
    PrefixHasNone(all, n + size);
  }

  lemma PrefixHasNone(all: string, k: nat)
    requires k <= |all| && !Contains(all, END)
    ensures !Contains(all[..k], END)
  {
    forall i ensures !OccursAt(all[..k], END, i) {
      assert all == all[..k] + all[k..];
      if i + 4 <= k { OccursInPrefix(all[..k], all[k..], END, i); }
    }
  }

  /** With nothing fresh ahead and the last start at the second byte of its read, the end of
      the stream is taken for the pattern's. */
  lemma {:induction false} OneEnds(all: string, n: nat)
    requires n <= |all| < SIZE_RANGE / 2 && !Contains(all, END) && forall e :: n <= e < |all| ==> !Fresh(all, e)
    ensures CanEnd(END, all, n, 1, Done(|all|))
    decreases |all| - n
  {
    hide Find, FindFrom, LastStart, Fresh, KeepsWaiting, Contains, CanEnd;
    if n == |all| {
      EndOfStream(END, all, 1, Done(n));
    } else {
      OneEnds(all, n + 1);
      NoneFresh(all, n, n + 1, 1);
      PrefixHasNone(all, n + 1);
      GoesOn(all, n, 1, 1, 1, Done(|all|));
    }
  }

  lemma {:induction false} StayFails(all: string, n: nat, start: nat) returns (r: Outcome)
    requires n <= |all| < SIZE_RANGE / 2 && start < SIZE_RANGE / 2 && !Contains(all, END) && !Stays(all, n, start)
    ensures CanEnd(END, all, n, start, r) && r.Done? && r.n <= |all|
    decreases |all| - n
  {
    hide Find, FindFrom, LastStart, Fresh, KeepsWaiting, Contains, CanEnd;
    assert all[n..] == all[n..|all|];
    var i := SomeFresh(all, n, |all|);
    if i == |all| {
      NoneFresh(all, n, |all|, start);
      r := QuietFails(all, n, start);
    } else {
      LastFresh(all, n, |all|, start, i);
      PrefixHasNone(all, n + 1);
      if i == n {
        r := FourStop(all, n, start);
      } else if i == n + 1 {
        PrefixHasNone(all, n + 2);
        LastFresh(all, n, n + 2, start, i);
        OneEnds(all, n + 2);
        r := Done(|all|);
        GoesOn(all, n, start, 2, 1, r);
      } else {
        r := FurtherFails(all, n, start, i);
      }
    }
  }

  /** Four bytes with the last fresh start at the first of them stop the loop. */
  lemma FourStop(all: string, n: nat, start: nat) returns (r: Outcome)
    requires n + 4 <= |all| && !Contains(all, END) && forall e :: n < e < |all| ==> !Fresh(all, e)
    requires Fresh(all, n) || start == 0
    ensures CanEnd(END, all, n, start, r) && r == Done(n + 4)
  {
    hide Find, FindFrom, LastStart, Fresh, KeepsWaiting, Contains, CanEnd;
    PrefixHasNone(all, n + 4);
    if Fresh(all, n) { LastFresh(all, n, n + 4, start, n); } else { NoneFresh(all, n, n + 4, start); }
    WaitExact(4, 0, n, 4);
    WrapSmall(4);
    r := Done(n + 4);
    assert CanPass(END, all, n, start, 4, r);
    Passes(END, all, n, start, 4, r);
  }

  lemma QuietFails(all: string, n: nat, start: nat) returns (r: Outcome)
    requires n <= |all| < SIZE_RANGE / 2 && start < SIZE_RANGE / 2 && !Contains(all, END)
    requires forall e :: n <= e < |all| ==> !Fresh(all, e)
    requires start > 0 || |all| - n > 3
    ensures CanEnd(END, all, n, start, r) && r.Done? && r.n <= |all|
  {
    hide Find, FindFrom, LastStart, Fresh, KeepsWaiting, Contains, CanEnd;
    if start == 0 {
      r := FourStop(all, n, start);
    } else if start == 1 {
      OneEnds(all, n);
      r := Done(|all|);
    } else if n == |all| {
      r := Done(n);
      EndOfStream(END, all, start, r);
    } else {
      PrefixHasNone(all, n + 1);
      OneByteStops(all, n, start);
      r := Done(n + 1);
    }
  }

  lemma {:induction false} FurtherFails(all: string, n: nat, start: nat, i: nat) returns (r: Outcome)
    requires n + 2 <= i < |all| < SIZE_RANGE / 2 && start < SIZE_RANGE / 2 && !Contains(all, END)
    requires Fresh(all, i) && forall e :: i < e < |all| ==> !Fresh(all, e)
    ensures CanEnd(END, all, n, start, r) && r.Done? && r.n <= |all|
    decreases |all| - n, 0
  {
    hide Find, FindFrom, LastStart, Fresh, KeepsWaiting, Contains, CanEnd;
    PrefixHasNone(all, n + 1);
    LastFresh(all, n + 1, |all|, 0, i);
    LastFresh(all, n + 1, |all|, start, i);
    assert all[n + 1..] == all[n + 1..|all|];
    if Fresh(all, n) {
      LastFresh(all, n, n + 1, start, n);
      r := StayFails(all, n + 1, 0);
      GoesOn(all, n, start, 1, 0, r);
    } else if start <= 1 {
      NoneFresh(all, n, n + 1, start);
      r := StayFails(all, n + 1, start);
      GoesOn(all, n, start, 1, start, r);
    } else {
      OneByteStops(all, n, start);
      r := Done(n + 1);
    }
  }

  // ---------- when a normal return means what it should ----------

  /** The buffered bytes make the loop wait. */
  ghost predicate Waits(unread: string) {
    !Contains(unread, END) && !NoStart(unread, END) && !TakenForHit(unread, END)
  }

  lemma NoStartExactly(unread: string)
    ensures NoStart(unread, END) <==> '\r' !in unread
  {
    hide LastStart;
    if '\r' in unread {
      StartSeen(END, unread);
    } else {
      assert unread[..0] == "" && unread[0..|unread|] == unread;
      NoneFresh(unread, 0, |unread|, -1);
      forall i ensures !OccursAt(unread, END, i) {
        if OccursAt(unread, END, i) { OccursHead(unread, END, i); }
      }
    }
  }

  /** A normal return comes only with the pattern, under every fragmentation. */
  ghost predicate EndIsEnd(unread: string, incoming: string) {
    forall r :: CanEndUntil(END, unread, incoming, r) && r.Done? ==>
                  r.n <= |unread + incoming| && Contains((unread + incoming)[..r.n], END)
  }

  /** The buffer has the pattern; or no CR, and the pattern is still to come; or it waits, and
      the pattern is reached, or without a pattern nothing ends the loop. */
  ghost predicate GoodStart(unread: string, incoming: string) {
    var all, start := unread + incoming, LastStart(END, "", unread, -1);
    || Contains(unread, END)
    || ('\r' !in unread && Contains(incoming, END))
    || (Waits(unread) && if Contains(all, END) then Find(all, END).Some? && Reaches(all, |unread|, start)
                         else Stays(all, |unread|, start))
  }

  /** Exactly when the normal return of transfer_mem_until means that the CRLFCRLF was relayed. */
  lemma EndExactly(unread: string, incoming: string)
    requires |unread + incoming| < SIZE_RANGE / 2
    ensures EndIsEnd(unread, incoming) <==> GoodStart(unread, incoming)
  {
    hide Find, FindFrom, LastStart, Contains, CanEnd, NoStart, TakenForHit, Reaches, Stays;
    var all := unread + incoming;
    NoStartExactly(unread);
    assert all[..|unread|] == unread;
    if Contains(unread, END) {
    } else if TakenForHit(unread, END) {
      HitHasStart(unread);
      assert CanEndUntil(END, unread, incoming, Done(|unread|));
    } else if NoStart(unread, END) {
      NoCrExactly(unread, incoming);
    } else {
      WaitsExactly(unread, incoming);
    }
  }

  lemma HitHasStart(unread: string)
    requires TakenForHit(unread, END)
    ensures !NoStart(unread, END)
  {
  }

  lemma NoCrExactly(unread: string, incoming: string)
    requires NoStart(unread, END) && !Contains(unread, END) && !TakenForHit(unread, END)
    ensures EndIsEnd(unread, incoming) <==> Contains(incoming, END)
  {
    hide Find, FindFrom, LastStart, CanEnd, NoStart, TakenForHit;
    var all := unread + incoming;
    assert all[..|unread|] == unread;
    if Find(incoming, END).Some? {
      var q := Find(incoming, END).value;
      OccursInSuffix(unread, incoming, END, |unread| + q);
      assert all == all[..|unread| + q + 4] + all[|unread| + q + 4..];
      OccursInPrefix(all[..|unread| + q + 4], all[|unread| + q + 4..], END, |unread| + q);
      assert Contains(incoming, END);
    } else {
      assert CanEndUntil(END, unread, incoming, Done(|unread|));
    }
  }

  lemma WaitsExactly(unread: string, incoming: string)
    requires Waits(unread) && |unread + incoming| < SIZE_RANGE / 2
    ensures var all, start := unread + incoming, LastStart(END, "", unread, -1);
            EndIsEnd(unread, incoming)
            <==> if Contains(all, END) then Find(all, END).Some? && Reaches(all, |unread|, start) else Stays(all, |unread|, start)
  {
    hide Find, FindFrom, LastStart, Contains, CanEnd, TakenForHit, Reaches, Stays;
    var all := unread + incoming;
    var start := LastStart(END, "", unread, -1);
    assert all[..|unread|] == unread;
    FindExactly(all, END);
    if Find(all, END).Some? {
      NotYet(END, all, |unread|);
      NotYet(END, all, FirstEnd(all, END));
      if Reaches(all, |unread|, start) {
        forall r | CanEndUntil(END, unread, incoming, r) ensures r == Done(FirstEnd(all, END)) {
          ReachSound(all, |unread|, start, r);
        }
      } else {
        var r := ReachFails(all, |unread|, start);
        assert CanEndUntil(END, unread, incoming, r);
        NotYet(END, all, r.n);
      }
    } else if Stays(all, |unread|, start) {
      forall r | CanEndUntil(END, unread, incoming, r) ensures r == Stalled(|all|) {
        StaySound(all, |unread|, start, r);
      }
    } else {
      var r := StayFails(all, |unread|, start);
      assert CanEndUntil(END, unread, incoming, r);
      PrefixHasNone(all, r.n);
      assert !EndIsEnd(unread, incoming);
    }
  }

  // ---------- after the last size line ----------

  const ZERO := "0\r\n"

  /** The peer closes right after the last size line: the normal return. */
  lemma ClosedAfterZero(r: Outcome)
    ensures CanEndUntil(END, ZERO, "", r) <==> r == Done(3)
  {
    ZeroWaits(ZERO);
    hide Find, FindFrom, LastStart, Contains, CanEnd, TakenForHit, NoStart;
    assert ZERO + "" == ZERO;
    EndOfStream(END, ZERO, 1, r);
  }

  /** The last size line, alone or with one more byte, waits. */
  lemma ZeroWaits(unread: string)
    requires ZERO <= unread && |unread| <= 4
    ensures Waits(unread) && LastStart(END, "", unread, -1) == 1
  {
    hide LastStart;
    assert unread[..0] == "" && unread[0..|unread|] == unread && unread[1..3] == ZERO[1..3] == CRLF;
    LastFresh(unread, 0, |unread|, -1, 1);
    forall i ensures !OccursAt(unread, END, i) {
      if OccursAt(unread, END, i) { OccursHead(unread, END, i); }
    }
  }

  /** Without a trailer the end is reached from every point of the buffer. */
  lemma PlainEnd(unread: string, incoming: string, r: Outcome)
    requires ZERO <= unread && ZERO + CRLF <= unread + incoming && CanEndUntil(END, unread, incoming, r)
    ensures r == Done(if |unread| < 5 then 5 else |unread|)
  {
    hide Find, FindFrom, LastStart, Contains, CanEnd, TakenForHit, NoStart;
    var all := unread + incoming;
    ZeroFirst(all);
    NotYet(END, all, |unread|);
    assert all[..|unread|] == unread;
    if |unread| < 5 {
      ZeroWaits(unread);
      StraddleEnds(END, all, |unread|, 1, r);
    }
  }

  lemma ZeroFirst(all: string)
    requires ZERO + CRLF <= all
    ensures Find(all, END) == Some(1) && FirstEnd(all, END) == 5
  {
    assert all[..5] == ZERO + CRLF;
    assert all[1..5] == all[..5][1..] == END;
    if OccursAt(all, END, 0) { OccursHead(all, END, 0); }
    FindIs(all, END, 1);
  }

  /** With anything else after the last size line, the size line alone in the buffer or with
      two bytes more is taken for the end under some fragmentation. */
  lemma TrailerFails(tail: string) returns (seen: nat)
    requires !(CRLF <= tail) && |tail| < SIZE_RANGE / 4
    ensures 3 <= seen <= 5 && seen <= |ZERO + tail|
    ensures !EndIsEnd((ZERO + tail)[..seen], (ZERO + tail)[seen..])
  {
    hide Find, FindFrom, LastStart, Contains, CanEnd, TakenForHit, NoStart, EndIsEnd, Fresh, Stays;
    var all := ZERO + tail;
    assert all[..3] == ZERO && all[3..] == tail && all[..3] + all[3..] == all;
    assert ZERO[1] == '\r' && all[1] == '\r';
    ZeroWaits(ZERO);
    EndExactly(ZERO, tail);
    FindExactly(all, END);
    seen := 3;
    if Find(all, END).Some? {
      FirstFacts(all);
      FirstAfterZero(tail);
      if Find(all, END).value == 4 {
        seen := 5;
        FiveWait(all);
        assert all[..5] + all[5..] == all && all[..5][1] == '\r';
        EndExactly(all[..5], all[5..]);
      }
    } else {
      ZeroStays(tail);
    }
  }

  lemma CrlfStarts(tail: string)
    requires |tail| >= 2 && tail[0] == '\r' && tail[1] == '\n'
    ensures CRLF <= tail
  {
  }

  /** Where the first CRLFCRLF can be when the trailer part is not empty. */
  lemma FirstAfterZero(tail: string)
    requires !(CRLF <= tail) && Find(ZERO + tail, END).Some?
    ensures Find(ZERO + tail, END).value >= 4
  {
    var all := ZERO + tail;
    var q := Find(all, END).value;
    OccursByte(all, END, q, 0);
    OccursByte(all, END, q, 1);
    OccursByte(all, END, q, 2);
    OccursByte(all, END, q, 3);
    if |tail| >= 2 && tail[0] == '\r' && tail[1] == '\n' { CrlfStarts(tail); }
  }

  /** One byte of a trailer and the CR of the pattern: the start at byte 4 is not waited for. */
  lemma FiveWait(all: string)
    requires ZERO <= all && Find(all, END) == Some(4)
    ensures |all| >= 8 && Waits(all[..5]) && LastStart(END, "", all[..5], -1) == 4
    ensures !Reaches(all, 5, 4)
  {
    hide LastStart;
    FirstFacts(all);
    var u := all[..5];
    FreshPrefix(all, 4);
    assert u[..0] == "" && u[0..5] == u && all[..4 + 1] == u;
    LastFresh(u, 0, 5, -1, 4);
    assert all == u + all[5..];
    NotYet(END, all, 5);
  }

  lemma ZeroStays(tail: string)
    ensures !Stays(ZERO + tail, 3, 1)
  {
    hide LastStart;
    var all := ZERO + tail;
    if |tail| <= 3 {
      assert all[3..] == all[3..|all|] && (tail != "" ==> all[1..3] == CRLF);
      if Stays(all, 3, 1) { StayFresh(all, 3, 1); }
    }
  }

  /** After the last size line: a normal return means, under every fragmentation, that the
      CRLFCRLF was relayed, exactly when there is no trailer. */
  lemma TailExactly(tail: string)
    requires |tail| < SIZE_RANGE / 4
    ensures (forall seen: nat {:trigger (ZERO + tail)[..seen]} :: 3 <= seen <= |ZERO + tail| ==>
               EndIsEnd((ZERO + tail)[..seen], (ZERO + tail)[seen..]))
            <==> CRLF <= tail
  {
    hide EndIsEnd;
    var all := ZERO + tail;
    if CRLF <= tail {
      forall seen: nat | 3 <= seen <= |all| ensures EndIsEnd(all[..seen], all[seen..]) {
        PlainEndIsEnd(all, seen);
      }
    } else {
      var seen := TrailerFails(tail);
      assert !EndIsEnd(all[..seen], all[seen..]);
    }
  }

  lemma PlainEndIsEnd(all: string, seen: nat)
    requires ZERO + CRLF <= all && 3 <= seen <= |all|
    ensures EndIsEnd(all[..seen], all[seen..])
  {
    hide Find, FindFrom, Contains, CanEndUntil;
    var u, i := all[..seen], all[seen..];
    assert u + i == all && ZERO <= u;
    ZeroFirst(all);
    forall r | CanEndUntil(END, u, i, r) ensures r.n <= |all| && Contains(all[..r.n], END) {
      PlainEnd(u, i, r);
      NotYet(END, all, r.n);
    }
  }
}
