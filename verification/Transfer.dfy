/** The forwarding loops of src/hmemory.h. */
module Transfer {
  import Seqs
  import opened Wrappers
  import opened Strings
  import opened BlockBuffer
  import opened SocketMemory
  import opened Kmp

  /** How a transfer ends: with the count it returns, or in a loop that can never end.
      Once the peer has closed every read yields "", and a loop whose pass then leaves its
      state unchanged repeats that pass for ever; `n` is what it had written by then. */
  datatype Outcome = Done(n: nat) | Stalled(n: nat)

  const LOAD_SIZE := 4096

  /** `n` bytes of `all` have been written after `sent`; the others are still to be read. */
  ghost predicate Relayed(from: Memory, to: Memory, all: string, sent: string, n: nat)
    reads from, to
  {
    && from.Valid() && n <= |all|
    && to.outgoing == sent + all[..n]
    && from.Stream() == all[n..]
  }

  lemma NextBytes(all: string, n: nat, s: string, rest: string)
    requires n <= |all| && all[n..] == s + rest
    ensures n + |s| <= |all| && all[..n + |s|] == all[..n] + s && all[n + |s|..] == rest
    ensures all == all[..n] + s + rest
  {
    assert all == all[..n] + all[n..];
  }

  /** The pair of calls each loop makes: write bytes, then consume as many, whichever they are. */
  method WriteThenConsume(from: Memory, to: Memory, s: string)
    requires from != to && from.Valid() && |s| <= |from.Unread()|
    modifies from`blocks, from`readIndex, to`outgoing
    ensures from.Valid() && to.outgoing == old(to.outgoing) + s
    ensures from.Unread() == old(from.Unread())[|s|..] && from.Stream() == old(from.Stream())[|s|..]
    ensures |from.blocks| <= old(|from.blocks|)
    ensures from.Unread() == "" ==> from.blocks == []
    ensures from.readIndex == old(from.readIndex) + |s|
  {
    hide Buffer.Valid, Buffer.Unread;
    to.AsyncWriteAll(s);
    var _ := from.RemoveSome(|s|);
    UnreadLength(from.State());
  }

  /** The same with bytes out of the buffer: what is written, unread and pending stays the stream. */
  method Forward(from: Memory, to: Memory, s: string, ghost all: string, ghost sent: string, ghost n: nat)
    requires from != to && Relayed(from, to, all, sent, n) && s <= from.Unread()
    modifies from`blocks, from`readIndex, to`outgoing
    ensures Relayed(from, to, all, sent, n + |s|)
    ensures from.Unread() == old(from.Unread())[|s|..]
    ensures |from.blocks| <= old(|from.blocks|)
    ensures from.Unread() == "" ==> from.blocks == []
    ensures from.readIndex == old(from.readIndex) + |s|
  {
    hide Buffer.Valid, Buffer.Unread;
    ghost var rest := from.Stream()[|s|..];
    assert from.Stream() == s + rest;
    NextBytes(all, n, s, rest);
    WriteThenConsume(from, to, s);
    assert sent + all[..n] + s == sent + all[..n + |s|];
  }

  /** A read moves bytes into the buffer; what is still to come does not change. */
  method LoadMore(from: Memory, to: Memory, max: nat, ghost all: string, ghost sent: string, ghost n: nat)
    returns (s: string)
    requires from != to && Relayed(from, to, all, sent, n) && from.Unread() == "" && max > 0
    requires from.blocks == []
    modifies from`blocks, from`writeIndex, from`readOk, from`incoming
    ensures Relayed(from, to, all, sent, n)
    ensures s == "" <==> old(from.incoming) == ""
    ensures |s| <= max && from.Unread() == s && old(from.incoming) == s + from.incoming
    ensures |from.blocks| <= 1
    ensures n + |s| <= |all| && all[..n + |s|] == all[..n] + s && all == all[..n] + s + from.incoming
  {
    hide Buffer.Valid, Buffer.Unread, Load;
    assert from.incoming == from.Stream() == all[n..];
    s := from.AsyncLoadSome(max);
    if s != "" {
      LoadAppends(old(from.State()), s);
    }
    NextBytes(all, n, s, from.incoming);
  }

  /** How many of `n` bytes are not among the first `k`. */
  function Beyond(n: nat, k: nat): (r: nat)
    ensures r == 0 || r + k == n
  {
    if n <= k then 0 else n - k
  }

  /** From a buffer that held `unread` and showed `v` of it, `n` bytes were written (`out`) and
      as many consumed: those are the first of the shown and the pending ones, these the first
      of the unread and the pending ones. */
  ghost predicate Moved(unread: string, incoming: string, v: string, n: nat, out: string, u: string, i: string) {
    && n <= |v + incoming| && n <= |unread + incoming|
    && out == (v + incoming)[..n] && u + i == (unread + incoming)[n..] && i == incoming[Beyond(n, |v|)..]
  }

  lemma MovedFirst(unread: string, incoming: string, v: string, s: string)
    requires s <= v <= unread
    ensures Moved(unread, incoming, v, |s|, s, unread[|s|..], incoming)
  {
    assert (unread + incoming)[|s|..] == unread[|s|..] + incoming;
  }

  lemma MovedNext(unread: string, incoming: string, v: string, n: nat, out: string, u: string, i: string, s: string, rest: string)
    requires Moved(unread, incoming, v, n, out, u, i) && |v| <= n && i == s + rest
    ensures s == "" && rest == "" ==> n == |v + incoming|
    ensures |s| <= |u + s| && Moved(unread, incoming, v, n + |s|, out + s, (u + s)[|s|..], rest)
  {
    assert (v + incoming)[n..] == i;
    assert (v + incoming)[..n] + s == (v + incoming)[..n + |s|];
    assert (u + s)[|s|..] + rest == (u + s + rest)[|s|..];
    assert u + s + rest == u + (s + rest);
    assert (unread + incoming)[n..][|s|..] == (unread + incoming)[n + |s|..];
  }

  lemma MovedWhole(unread: string, incoming: string, n: nat, out: string, u: string, i: string)
    requires Moved(unread, incoming, unread, n, out, u, i)
    ensures u == if n < |unread| then unread[n..] else ""
  {
    if n < |unread| {
      assert i == incoming && (unread + incoming)[n..] == unread[n..] + i;
      assert u == (u + i)[..|u|] == (unread[n..] + i)[..|u|];
    } else {
      assert (unread + incoming)[n..] == i;
    }
  }

  lemma MovedFacts(unread: string, incoming: string, v: string, n: nat, out: string, u: string, i: string)
    requires Moved(unread, incoming, v, n, out, u, i)
    ensures n <= |v + incoming| && out == (v + incoming)[..n]
    ensures n <= |unread + incoming| && u + i == (unread + incoming)[n..] && i == incoming[Beyond(n, |v|)..]
    ensures v == unread ==> u == if n < |unread| then unread[n..] else ""
  {
    hide Beyond;
    if v == unread { MovedWhole(unread, incoming, n, out, u, i); }
  }

  lemma MergeVisible(buf: Buffer)
    requires buf.Valid() && buf.Reachable()
    ensures Merge(buf).Valid() && Merge(buf).Reachable() && GetSome(Merge(buf)) == Visible(buf) && |Merge(buf).blocks| <= 1
  {
    MergeKeeps(buf);
  }

  /** What transfer_mem does to a buffer that shows `v` of its unread bytes: it forwards the
      first `total` of the shown and the pending bytes, and consumes as many; `left` is the
      stream afterwards, `u` and `i` its unread and its pending part. */
  ghost predicate MemGoes(unread: string, incoming: string, v: string, total: nat, r: Outcome, text: string, left: string, u: string, i: string)
  {
    var source, all := v + incoming, unread + incoming;
    && r == (if total <= |source| then Done(total) else Stalled(|source|)) && text == source[..r.n]
    && r.n <= |all| && left == all[r.n..] && i == incoming[Beyond(r.n, |v|)..]
    && (v == unread ==> u == if r.n < |unread| then unread[r.n..] else "")
  }

  lemma MemIs(unread: string, incoming: string, v: string, total: nat, n: nat, text: string, u: string, i: string)
    requires Moved(unread, incoming, v, n, text, u, i) && n <= total && (n < total ==> n == |v + incoming|)
    ensures MemGoes(unread, incoming, v, total, if n < total then Stalled(n) else Done(n), text, u + i, u, i)
  {
    MovedFacts(unread, incoming, v, n, text, u, i);
  }

  /** transfer_mem: the bytes forwarded are the next ones, wherever they are, if get_some shows
      them; otherwise (from 2 GiB on, see VisibleExact) those behind the buffered ones. The
      assertion at its end holds in the first case. */
  method TransferMem(from: Memory, to: Memory, total: nat) returns (r: Outcome, ghost text: string)
    requires from != to && from.Valid() && from.State().Reachable()
    modifies from`blocks, from`readIndex, from`writeIndex, from`readOk, from`incoming, to`outgoing
    ensures from.Valid() && from.readIndex == old(from.readIndex) + r.n && (old(from.Fits()) ==> from.Fits())
    ensures to.outgoing == old(to.outgoing) + text
    ensures MemGoes(old(from.Unread()), old(from.incoming), Visible(old(from.State())), total, r, text,
                    from.Stream(), from.Unread(), from.incoming)
    ensures Visible(old(from.State())) == old(from.Unread()) ==> |from.blocks| <= 1
  {
    hide Buffer.Valid, Buffer.Unread, Merge, Load, Remove, BlockBuffer.GetSome, Visible, Moved, MemGoes, Hits;
    ghost var unread, incoming, sent := from.Unread(), from.incoming, to.outgoing;
    VisibleExact(from.State());
    MergeVisible(from.State());
    var nx: nat := 0;
    text := "";
    var _ := from.MergeSome();
    var som := from.GetSome();
    ghost var v := som;
    MovedFirst(unread, incoming, v, "");
    assert unread[0..] == unread && sent + "" == sent;
    if nx < total {
      if |som| > 0 {
        if |som| + nx > total {
          som := som[..total - nx];
        }
        MovedFirst(unread, incoming, v, som);
        WriteThenConsume(from, to, som);
        nx := nx + |som|;
        text := som;
      }
    }
    var n := ReadRest(from, to, total, nx, unread, incoming, v, sent, text);
    text := to.outgoing[|sent|..];
    assert to.outgoing == sent + text;
    MemIs(unread, incoming, v, total, n, text, from.Unread(), from.incoming);
    r := if n < total then Stalled(n) else Done(n);
  }

  /** The loop of transfer_mem, until `total` bytes are written or no more come. */
  method ReadRest(from: Memory, to: Memory, total: nat, n0: nat, ghost unread: string, ghost incoming: string, ghost v: string,
                  ghost sent: string, ghost out0: string)
    returns (n: nat)
    requires from != to && from.Valid() && n0 <= total && (n0 < total ==> |v| <= n0) && to.outgoing == sent + out0
    requires Moved(unread, incoming, v, n0, out0, from.Unread(), from.incoming) && (v == unread ==> |from.blocks| <= 1)
    modifies from`blocks, from`readIndex, from`writeIndex, from`readOk, from`incoming, to`outgoing
    ensures from.Valid() && from.readIndex == old(from.readIndex) + n - n0 && (old(from.Fits()) ==> from.Fits())
    ensures n0 <= n <= total && (n < total ==> n == |v + incoming|)
    ensures sent <= to.outgoing
    ensures Moved(unread, incoming, v, n, to.outgoing[|sent|..], from.Unread(), from.incoming)
    ensures v == unread ==> |from.blocks| <= 1
  {
    hide Buffer.Valid, Buffer.Unread, Load, Remove, Moved;
    n := n0;
    ghost var out := out0;
    assert (sent + out)[|sent|..] == out;
    while n < total
      invariant from.Valid() && n0 <= n <= total && (n < total ==> |v| <= n)
      invariant to.outgoing == sent + out && to.outgoing[|sent|..] == out
      invariant Moved(unread, incoming, v, n, out, from.Unread(), from.incoming)
      invariant from.readIndex == old(from.readIndex) + n - n0 && (old(from.Fits()) ==> from.Fits())
      invariant v == unread ==> |from.blocks| <= 1
      decreases total - n
    {
      if v == unread { MovedWhole(unread, incoming, n, out, from.Unread(), from.incoming); }
      UnreadLength(from.State());
      ghost var u, i := from.Unread(), from.incoming;
      var str := from.AsyncLoadSome(total - n);
      MovedNext(unread, incoming, v, n, out, u, i, str, from.incoming);
      if str == "" {
        return;
      }
      WriteThenConsume(from, to, str);
      n := n + |str|;
      out := out + str;
      assert (sent + out)[|sent|..] == out;
    }
  }

  // ---------- transfer_mem_until ----------

  /** The test after a further search returned `p`: with unsigned wrap-around, are the bytes
      from `p` on fewer than the pattern? */
  predicate KeepsWaiting(size: nat, p: int, checked: nat, m: nat) {
    Wrap(size - Wrap(p - checked)) < m
  }

  /** After a search that found nothing the test sees only the index at which the matcher
      last started afresh. It says "found" whenever that index is stale: past the end of
      the bytes just read, or a whole pattern before it. */
  lemma WaitExact(size: nat, start: int, checked: nat, m: nat)
    requires -1 <= start < SIZE_RANGE / 2 && size <= LOAD_SIZE && 0 < m <= 512
    ensures KeepsWaiting(size, start + checked, checked, m)
            <==> if start < 0 then size + 1 < m else start <= size && size - start < m
  {
  }

  /** After a search that found the pattern the test always sees the whole pattern. */
  lemma FoundStops(size: nat, p: nat, checked: nat, m: nat)
    requires size <= LOAD_SIZE && 0 < m <= 512
    requires checked < p + m <= checked + size
    ensures !KeepsWaiting(size, p, checked, m)
    ensures Wrap(p - checked + m) == p + m - checked
  {
  }

  /** The buffered bytes hold no pattern and none of its beginning. */
  ghost predicate NoStart(unread: string, pattern: string)
    requires pattern != ""
  {
    !Contains(unread, pattern) && LastStart(pattern, "", unread, -1) < 0
  }

  /** Buffered bytes without the pattern that the first test still takes for a hit. */
  ghost predicate TakenForHit(unread: string, pattern: string)
    requires pattern != ""
  {
    var start := LastStart(pattern, "", unread, -1);
    !Contains(unread, pattern) && 0 <= start && |unread| - start >= |pattern|
  }

  /** The first pattern runs past the buffered bytes, and they are waited for: its last fresh
      start was at byte 0 or 1 of them, or only one byte of the pattern is missing. */
  ghost predicate Straddles(unread: string, all: string, pattern: string)
    requires pattern != ""
  {
    var start := LastStart(pattern, "", unread, -1);
    && !Contains(unread, pattern) && !NoStart(unread, pattern) && !TakenForHit(unread, pattern)
    && Find(all, pattern).Some? && Find(all, pattern).value < |unread|
    && (start <= 1 || |unread| + 1 == FirstEnd(all, pattern))
  }

  /** While an occurrence is being completed the matcher does not start afresh. */
  lemma StartStays(p: string, all: string, at: nat, fed: string, text: string, before: int)
    requires OccursAt(all, p, at) && fed + text <= all && !Contains(fed + text, p)
    requires at < |fed|
    ensures LastStart(p, fed, text, before) == before
    decreases |text|
  {
    if text != "" {
      var t := fed + text;
      assert |t| < at + |p| by {
        if at + |p| <= |t| { assert OccursAt(t, p, at); }
      }
      var k := |t| - at;
      assert t[at..] == all[at..at + |p|][..k] == p[..k];
      assert Border(p, t, k) && 2 <= k;
      var shorter := text[..|text| - 1];
      assert fed + text == fed + shorter + [text[|text| - 1]];
      if Contains(fed + shorter, p) {
        var i :| OccursAt(fed + shorter, p, i);
        OccursInPrefix(fed + shorter, [text[|text| - 1]], p, i);
      }
      StartStays(p, all, at, fed, shorter, before);
    }
  }

  lemma NotYetComplete(p: string, all: string, at: nat, t: string)
    requires OccursAt(all, p, at) && t <= all && !Contains(t, p)
    ensures |t| < at + |p|
  {
    if at + |p| <= |t| { assert OccursAt(t, p, at); }
  }

  lemma FoundBeyond(p: string, t: string, s: string, at: nat)
    requires !Contains(t, p) && Find(t + s, p) == Some(at)
    ensures |t| < at + |p| <= |t| + |s|
  {
    if at + |p| <= |t| {
      OccursInPrefix(t, s, p, at);
    }
  }

  /** The first test tells the cases apart. */
  lemma FirstTest(unread: string, pattern: string, p: int)
    requires pattern != ""
    requires Contains(unread, pattern) ==> Find(unread, pattern) == Some(p)
    requires !Contains(unread, pattern) ==> p == LastStart(pattern, "", unread, -1)
    ensures p < 0 <==> NoStart(unread, pattern)
    ensures -1 <= p < |unread| || Contains(unread, pattern)
    ensures p >= 0 && |unread| - p >= |pattern| <==> Contains(unread, pattern) || TakenForHit(unread, pattern)
  {
  }

  lemma TakePrefix(s: string, n: nat)
    ensures Take(s, n) <= s
  {
  }

  /** A search that finds the pattern ends the loop one past its first occurrence. */
  lemma FoundEnds(pattern: string, all: string, fed: string, s: string, rest: string, p: int)
    requires 0 < |pattern| <= 512 && |s| <= LOAD_SIZE && all == fed + s + rest
    requires !Contains(fed, pattern) && Find(fed + s, pattern) == Some(p)
    ensures !KeepsWaiting(|s|, p, |fed|, |pattern|)
    ensures Find(all, pattern).Some?
    ensures |fed| + |Take(s, Wrap(p - |fed| + |pattern|))| == FirstEnd(all, pattern)
  {
    FoundBeyond(pattern, fed, s, p);
    FoundStops(|s|, p, |fed|, |pattern|);
    FindInPrefix(fed + s, rest, pattern);
  }

  // ---------- every way the middle loop can end ----------

  /** After `n` bytes of the stream `all` were searched in vain, with the last fresh start at
      `start`, counted in the read it was in: `r` is how the loop ends under some
      fragmentation of the rest. */
  ghost predicate CanEnd(p: string, all: string, n: nat, start: int, r: Outcome)
    requires p != ""
    decreases |all| - n, 1
  {
    n <= |all| &&
    if n == |all| then r == if KeepsWaiting(0, start + n, n, |p|) then Stalled(n) else Done(n)
    else exists size: nat :: 1 <= size <= LOAD_SIZE && n + size <= |all| && CanPass(p, all, n, start, size, r)
  }

  /** The same, when the next read brings `size` bytes. */
  ghost predicate CanPass(p: string, all: string, n: nat, start: int, size: nat, r: Outcome)
    requires p != "" && 1 <= size && n + size <= |all|
    decreases |all| - n, 0
  {
    var text := all[n..n + size];
    var next := LastStart(p, all[..n], text, start);
    if Contains(all[..n + size], p) then Find(all, p).Some? && r == Done(FirstEnd(all, p))
    else if KeepsWaiting(size, next + n, n, |p|) then CanEnd(p, all, n + size, next, r)
    else r == Done(n + |Take(text, Wrap(next + |p|))|)
  }

  /** Every way transfer_mem_until can end, in terms of the bytes alone. */
  ghost predicate CanEndUntil(p: string, unread: string, incoming: string, r: Outcome)
    requires p != ""
  {
    if Contains(unread, p) || TakenForHit(unread, p) then r == Done(|unread|)
    else if NoStart(unread, p) then
      r == Done(|unread| + if Find(incoming, p).Some? then FirstEnd(incoming, p) else 0)
    else CanEnd(p, unread + incoming, |unread|, LastStart(p, "", unread, -1), r)
  }

  lemma {:induction false} EndInside(p: string, all: string, n: nat, start: int, r: Outcome)
    requires p != "" && CanEnd(p, all, n, start, r)
    ensures r.n <= |all|
    decreases |all| - n
  {
    hide Contains, Find, FindFrom, LastStart, KeepsWaiting, Wrap;
    if n < |all| {
      var size: nat :| 1 <= size <= LOAD_SIZE && n + size <= |all| && CanPass(p, all, n, start, size, r);
      var next := LastStart(p, all[..n], all[n..n + size], start);
      if !Contains(all[..n + size], p) && KeepsWaiting(size, next + n, n, |p|) {
        EndInside(p, all, n + size, next, r);
      } else if Contains(all[..n + size], p) {
        FindInside(all, p);
      }
    }
  }

  lemma FindInside(all: string, p: string)
    requires Find(all, p).Some?
    ensures FirstEnd(all, p) <= |all|
  {
  }

  /** At the end of the stream the loop stalls exactly when the last fresh start was at the
      first byte of its read; otherwise it ends as if the pattern had come. */
  lemma EndOfStream(p: string, all: string, start: nat, r: Outcome)
    requires 0 < |p| <= 512 && start < SIZE_RANGE / 2
    ensures CanEnd(p, all, |all|, start, r) <==> r == if start == 0 then Stalled(|all|) else Done(|all|)
  {
    WaitExact(0, start, |all|, |p|);
  }

  /** An occurrence that runs past the searched bytes is relayed under every fragmentation,
      and no byte more, exactly when the last fresh start was at byte 0 or 1 of its read or
      only one byte is missing. */
  lemma StraddleExactly(p: string, all: string, n: nat, start: nat)
    requires 0 < |p| <= 512 && Find(all, p).Some? && Find(all, p).value < n < FirstEnd(all, p)
    requires start < SIZE_RANGE / 2
    ensures (forall r :: CanEnd(p, all, n, start, r) ==> r == Done(FirstEnd(all, p)))
            <==> start <= 1 || n + 1 == FirstEnd(all, p)
  {
    hide CanEnd;
    if start <= 1 || n + 1 == FirstEnd(all, p) {
      forall r | CanEnd(p, all, n, start, r) ensures r == Done(FirstEnd(all, p)) {
        StraddleEnds(p, all, n, start, r);
      }
    } else {
      StraddleFails(p, all, n, start);
    }
  }

  /** No occurrence in the searched bytes when the first one ends after them. */
  lemma NotYet(p: string, all: string, k: nat)
    requires p != "" && Find(all, p).Some? && k <= |all|
    ensures Contains(all[..k], p) <==> FirstEnd(all, p) <= k
  {
    assert all == all[..k] + all[k..];
    if Contains(all[..k], p) {
      FindInPrefix(all[..k], all[k..], p);
    } else {
      NotYetComplete(p, all, Find(all, p).value, all[..k]);
    }
  }

  lemma Chunk(all: string, n: nat, size: nat)
    requires n + size <= |all|
    ensures all[..n] + all[n..n + size] == all[..n + size] && all[..n + size] <= all
  {
  }

  lemma WaitShort(size: nat, start: nat, checked: nat, m: nat)
    requires start <= 1 <= size <= LOAD_SIZE && size < m <= 512
    ensures KeepsWaiting(size, start + checked, checked, m)
  {
    WaitExact(size, start, checked, m);
  }

  lemma {:induction false} StraddleEnds(p: string, all: string, n: nat, start: nat, r: Outcome)
    requires 0 < |p| <= 512 && Find(all, p).Some? && Find(all, p).value < n < FirstEnd(all, p)
    requires start <= 1 || n + 1 == FirstEnd(all, p)
    requires CanEnd(p, all, n, start, r)
    ensures r == Done(FirstEnd(all, p))
    decreases |all| - n
  {
    hide Find, FindFrom, Contains, LastStart, KeepsWaiting, Wrap;
    var q := Find(all, p).value;
    var size: nat :| 1 <= size <= LOAD_SIZE && n + size <= |all| && CanPass(p, all, n, start, size, r);
    NotYet(p, all, n + size);
    if n + size < FirstEnd(all, p) {
      Chunk(all, n, size);
      StartStays(p, all, q, all[..n], all[n..n + size], start);
      WaitShort(size, start, n, |p|);
      StraddleEnds(p, all, n + size, start, r);
    }
  }

  lemma StraddleFails(p: string, all: string, n: nat, start: nat)
    requires 0 < |p| <= 512 && Find(all, p).Some? && Find(all, p).value < n && n + 1 < FirstEnd(all, p)
    requires 2 <= start < SIZE_RANGE / 2
    ensures CanEnd(p, all, n, start, Done(n + 1))
  {
    hide Find, FindFrom, Contains, LastStart, KeepsWaiting, Wrap;
    NotYet(p, all, n + 1);
    Chunk(all, n, 1);
    StartStays(p, all, Find(all, p).value, all[..n], all[n..n + 1], start);
    WaitExact(1, start, n, |p|);
    WrapSmall(start + |p|);
    assert CanPass(p, all, n, start, 1, Done(n + 1));
  }

  lemma WrapSmall(x: nat)
    ensures x < SIZE_RANGE ==> Wrap(x) == x
  {
  }

  /** What the middle branch knows each time round: `som` has been searched but not written. */
  ghost predicate Searched(from: Memory, to: Memory, kmp: KMP, all: string, sent: string, n: nat, som: string)
    reads from, to, kmp, kmp.lps
  {
    && Relayed(from, to, all, sent, n) && from.Unread() == som
    && kmp.Valid() && n + |som| <= |all|
  }

  /** One pass of the loop: forward what was searched, read more, search that. */
  method SearchMore(from: Memory, to: Memory, kmp: KMP, som: string, ghost all: string, ghost sent: string, ghost n: nat)
    returns (next: string, p: int)
    requires from != to && Searched(from, to, kmp, all, sent, n, som) && som <= from.Unread()
    requires kmp.j < |kmp.pattern| <= 512 && kmp.fed == all[..n + |som|]
    modifies kmp
    modifies from`blocks, from`readIndex, from`writeIndex, from`readOk, from`incoming, to`outgoing
    ensures Searched(from, to, kmp, all, sent, n + |som|, next)
    ensures (next == "" <==> n + |som| == |all|) && |next| <= LOAD_SIZE
    ensures |from.incoming| == old(|from.incoming|) - |next|
    ensures next == all[n + |som|..n + |som| + |next|]
    ensures var k := n + |som|;
            if Contains(all[..k + |next|], kmp.pattern) then
              && Find(all, kmp.pattern).Some? && !KeepsWaiting(|next|, p, k, |kmp.pattern|)
              && k + |Take(next, Wrap(p - k + |kmp.pattern|))| == FirstEnd(all, kmp.pattern)
            else
              && kmp.j < |kmp.pattern| && kmp.fed == all[..k + |next|] && p == kmp.matchIndex + k
              && kmp.matchIndex == LastStart(kmp.pattern, all[..k], next, old(kmp.matchIndex))
  {
    hide Buffer.Valid, Buffer.Unread, Find, Contains, Overlap, LastStart, KeepsWaiting;
    hide Take, FirstEnd, Wrap, KMP.LpsValid, PrefixFunction, Load, Remove, Merge;
    Forward(from, to, som, all, sent, n);
    assert from.incoming == from.Stream() == all[n + |som|..];
    next := LoadMore(from, to, LOAD_SIZE, all, sent, n + |som|);
    ghost var fed := kmp.fed;
    assert all == fed + next + from.incoming;
    p := kmp.Search(next);
    assert fed + next == all[..n + |som| + |next|];
    if kmp.j == |kmp.pattern| {
      FoundEnds(kmp.pattern, all, fed, next, from.incoming, p);
    }
  }

  /** Whatever can happen from the later state can happen from the earlier one. */
  ghost predicate LeadsTo(p: string, all: string, n0: nat, start0: int, n: nat, start: int)
    requires p != ""
  {
    forall r :: CanEnd(p, all, n, start, r) ==> CanEnd(p, all, n0, start0, r)
  }

  lemma CanStep(p: string, all: string, n0: nat, start0: int, n: nat, start: int, size: nat)
    requires 0 < |p| && 1 <= size <= LOAD_SIZE && n + size <= |all| && LeadsTo(p, all, n0, start0, n, start)
    ensures var next := LastStart(p, all[..n], all[n..n + size], start);
            if Contains(all[..n + size], p) then
              Find(all, p).Some? ==> CanEnd(p, all, n0, start0, Done(FirstEnd(all, p)))
            else if KeepsWaiting(size, next + n, n, |p|) then LeadsTo(p, all, n0, start0, n + size, next)
            else CanEnd(p, all, n0, start0, Done(n + |Take(all[n..n + size], Wrap(next + |p|))|))
  {
    hide Find, FindFrom, Contains, LastStart, KeepsWaiting, Wrap, Take, FirstEnd;
    forall r | CanPass(p, all, n, start, size, r) ensures CanEnd(p, all, n0, start0, r) {
      assert CanEnd(p, all, n, start, r);
    }
    var next := LastStart(p, all[..n], all[n..n + size], start);
    if !Contains(all[..n + size], p) {
      if KeepsWaiting(size, next + n, n, |p|) {
        forall r | CanEnd(p, all, n + size, next, r) ensures CanEnd(p, all, n0, start0, r) {
          assert CanPass(p, all, n, start, size, r);
        }
      } else {
        assert CanPass(p, all, n, start, size, Done(n + |Take(all[n..n + size], Wrap(next + |p|))|));
      }
    } else if Find(all, p).Some? {
      assert CanPass(p, all, n, start, size, Done(FirstEnd(all, p)));
    }
  }

  /** The loop of the middle branch. */
  method WaitForRest(from: Memory, to: Memory, pattern: string, kmp: KMP, first: string, ghost all: string, ghost sent: string)
    returns (r: Outcome)
    requires from != to && Searched(from, to, kmp, all, sent, 0, first) && 0 < |pattern| <= 512
    requires kmp.pattern == pattern && kmp.j < |pattern| && kmp.fed == first <= all
    requires kmp.matchIndex == LastStart(pattern, "", first, -1) && !Contains(first, pattern)
    modifies kmp
    modifies from`blocks, from`readIndex, from`writeIndex, from`readOk, from`incoming, to`outgoing
    ensures |first| <= r.n && Relayed(from, to, all, sent, r.n)
    ensures CanEnd(pattern, all, |first|, LastStart(pattern, "", first, -1), r)
  {
    hide Buffer.Valid, Buffer.Unread, Find, Contains, Overlap, LastStart, KeepsWaiting, CanEnd, CanPass, LeadsTo;
    hide Take, FirstEnd, Wrap, KMP.Valid, Relayed;
    var n: nat, checked: nat, som := 0, 0, first;
    ghost var start := kmp.matchIndex;
    LeadsToSelf(pattern, all, |first|, start);
    assert all[..|som|] == som;
    while true
      invariant Searched(from, to, kmp, all, sent, n, som) && n == checked
      invariant kmp.pattern == pattern && kmp.j < |pattern| && |first| <= n + |som|
      invariant n + |som| <= |all| && kmp.fed == all[..n + |som|] && !Contains(all[..n + |som|], pattern)
      invariant LeadsTo(pattern, all, |first|, start, n + |som|, kmp.matchIndex)
      decreases |from.incoming|
    {
      checked := checked + |som|;
      ghost var before := kmp.matchIndex;
      var next, p := SearchMore(from, to, kmp, som, all, sent, n);
      n := n + |som|;
      som := next;
      if som == "" {
        AtEnd(pattern, all, |first|, start, n, before);
      } else {
        CanStep(pattern, all, |first|, start, n, before, |som|);
      }
      if KeepsWaiting(|som|, p, checked, |pattern|) {
        if som == "" {
          return Stalled(n);
        }
      } else {
        TakePrefix(som, Wrap(p - checked + |pattern|));
        som := Take(som, Wrap(p - checked + |pattern|));
        Forward(from, to, som, all, sent, n);
        n := n + |som|;
        return Done(n);
      }
    }
  }

  lemma LeadsToSelf(p: string, all: string, n: nat, start: int)
    requires p != ""
    ensures LeadsTo(p, all, n, start, n, start)
  {
  }

  /** A read at the end of the stream brings nothing: no fresh start, no pattern. */
  lemma AtEnd(p: string, all: string, n0: nat, start0: int, n: nat, start: int)
    requires 0 < |p| && n == |all| && LeadsTo(p, all, n0, start0, n, start)
    ensures LastStart(p, all[..n], "", start) == start && all[..n] == all
    ensures CanEnd(p, all, n0, start0, if KeepsWaiting(0, start + n, n, |p|) then Stalled(n) else Done(n))
  {
    hide KeepsWaiting;
  }

  /** The end of the first branch: read from the socket until the pattern, write that, and
      consume as many bytes of the buffer. */
  method LoadThrough(from: Memory, to: Memory, pattern: string) returns (written: nat)
    requires from != to && from.Valid() && 0 < |pattern| <= 512
    modifies from`blocks, from`readIndex, from`writeIndex, from`readOk, from`incoming, to`outgoing
    ensures from.Valid() && from.readIndex == old(from.readIndex) + written && (old(from.Fits()) ==> from.Fits())
    ensures Find(old(from.incoming), pattern).Some? ==>
              && written == FirstEnd(old(from.incoming), pattern) <= |old(from.incoming)|
              && to.outgoing == old(to.outgoing) + old(from.incoming)[..written]
              && from.Stream() == old(from.Stream())[written..]
    ensures Find(old(from.incoming), pattern).None? ==>
              && written == 0 && to.outgoing == old(to.outgoing)
              && from.incoming == "" && from.Unread() == old(from.Unread())
  {
    hide Buffer.Valid, Buffer.Unread, Find, Contains, FirstEnd, Load, Remove, Merge;
    var line := from.AsyncLoadUntil(pattern);
    WriteThenConsume(from, to, line);
    return |line|;
  }

  lemma StraddleUntil(p: string, unread: string, all: string, r: Outcome)
    requires 0 < |p| <= 512 && unread <= all && CanEnd(p, all, |unread|, LastStart(p, "", unread, -1), r)
    requires LastStart(p, "", unread, -1) >= 0
    ensures Straddles(unread, all, p) ==> r == Done(FirstEnd(all, p))
  {
    hide Find, FindFrom, Contains, LastStart, CanEnd, NoStart, TakenForHit;
    if Straddles(unread, all, p) {
      NotYet(p, all, |unread|);
      assert all[..|unread|] == unread;
      StraddleEnds(p, all, |unread|, LastStart(p, "", unread, -1), r);
    }
  }

  /** What transfer_mem_until does to a buffer that shows `v` of its unread bytes: it searches
      and forwards the shown and the pending bytes, ends in one of the ways it can, and
      consumes as many bytes as it forwards; none is lost but those dropped when the peer
      closes during the second read. */
  ghost predicate UntilGoes(p: string, unread: string, incoming: string, v: string, r: Outcome, text: string, left: string, u: string)
    requires p != ""
  {
    var all := unread + incoming;
    && CanEndUntil(p, v, incoming, r) && |v| <= r.n <= |v + incoming| && text == (v + incoming)[..r.n]
    && v <= unread && r.n <= |all|
    && left == (if NoStart(v, p) && Find(incoming, p).None? then unread[|v|..] else all[r.n..])
    && (Contains(v, p) || TakenForHit(v, p) ==> u == "")
  }

  method TransferMemUntil(from: Memory, to: Memory, pattern: string) returns (r: Outcome, ghost text: string)
    requires from != to && from.Valid() && from.State().Reachable() && 0 < |pattern| <= 512
    modifies from`blocks, from`readIndex, from`writeIndex, from`readOk, from`incoming, to`outgoing
    ensures from.Valid() && to.outgoing == old(to.outgoing) + text
    ensures UntilGoes(pattern, old(from.Unread()), old(from.incoming), Visible(old(from.State())), r, text, from.Stream(), from.Unread())
  {
    hide Buffer.Valid, Buffer.Unread, Find, FindFrom, Contains, Overlap, LastStart, TakenForHit, NoStart, Visible, UntilGoes;
    hide KMP.Valid, FirstEnd, PrefixFunction, Load, Remove, CanEnd, BlockBuffer.GetSome, Merge;
    ghost var unread, incoming, sent := from.Unread(), from.incoming, to.outgoing;
    VisibleExact(from.State());
    MergeVisible(from.State());
    var _ := from.MergeSome();
    var som := from.GetSome();
    ghost var v := som;
    var kmp := new KMP(pattern);
    assert "" + som == som;
    var p := kmp.Search(som);
    FirstTest(som, pattern, p);
    NothingShown(pattern);
    if p < 0 {
      WriteThenConsume(from, to, som);
      var written := LoadThrough(from, to, pattern);
      r := Done(|som| + written);
      text := som + incoming[..written];
      assert to.outgoing == sent + som + incoming[..written];
      Seqs.Join(sent, som, incoming[..written]);
      ThroughGoes(pattern, unread, incoming, v, written, text, from.Stream(), from.Unread());
    } else if |som| - p < |pattern| {
      r := WaitForRest(from, to, pattern, kmp, som, unread + incoming, sent);
      text := (unread + incoming)[..r.n];
      assert to.outgoing == sent + text;
      WaitGoes(pattern, unread, incoming, r, from.Stream(), from.Unread());
    } else {
      WriteThenConsume(from, to, som);
      r := Done(|som|);
      text := som;
      assert to.outgoing == sent + text;
      AllGoes(pattern, unread, incoming, r, from.Stream(), from.Unread());
    }
  }

  lemma ThroughGoes(p: string, unread: string, incoming: string, v: string, written: nat, text: string, left: string, u: string)
    requires p != "" && v <= unread && NoStart(v, p) && written <= |incoming| && text == v + incoming[..written]
    requires if Find(incoming, p).Some? then written == FirstEnd(incoming, p) && left == (unread + incoming)[|v|..][written..]
             else written == 0 && left == unread[|v|..]
    ensures UntilGoes(p, unread, incoming, v, Done(|v| + written), text, left, u)
  {
    hide Find, FindFrom, FirstEnd, LastStart, CanEnd;
    assert text == (v + incoming)[..|v| + written];
    assert (unread + incoming)[|v|..][written..] == (unread + incoming)[|v| + written..];
  }

  lemma WaitGoes(p: string, unread: string, incoming: string, r: Outcome, left: string, u: string)
    requires p != "" && !NoStart(unread, p) && !Contains(unread, p) && !TakenForHit(unread, p)
    requires |unread| <= r.n <= |unread + incoming| && left == (unread + incoming)[r.n..]
    requires CanEnd(p, unread + incoming, |unread|, LastStart(p, "", unread, -1), r)
    ensures UntilGoes(p, unread, incoming, unread, r, (unread + incoming)[..r.n], left, u)
  {
    hide Find, FindFrom, LastStart, CanEnd;
  }

  lemma AllGoes(p: string, unread: string, incoming: string, r: Outcome, left: string, u: string)
    requires p != "" && !NoStart(unread, p) && (Contains(unread, p) || TakenForHit(unread, p))
    requires r == Done(|unread|) && left == (unread + incoming)[|unread|..] && u == ""
    ensures UntilGoes(p, unread, incoming, unread, r, unread, left, u)
  {
    hide Find, FindFrom, LastStart, CanEnd;
    assert (unread + incoming)[..|unread|] == unread;
  }

  /** The three branches, and where each stops. */
  lemma UntilIs(p: string, v: string, i: string, r: Outcome)
    requires 0 < |p| <= 512
    ensures NoStart(v, p) ==>
              (CanEndUntil(p, v, i, r) <==> r == Done(|v| + if Find(i, p).Some? then FirstEnd(i, p) else 0))
    ensures Contains(v, p) || TakenForHit(v, p) ==> (CanEndUntil(p, v, i, r) <==> r == Done(|v|))
    ensures !NoStart(v, p) && !Contains(v, p) && !TakenForHit(v, p) ==>
              (CanEndUntil(p, v, i, r) <==> CanEnd(p, v + i, |v|, LastStart(p, "", v, -1), r))
    ensures CanEndUntil(p, v, i, r) && Straddles(v, v + i, p) ==> r == Done(FirstEnd(v + i, p))
  {
    hide Find, FindFrom, Contains, LastStart, CanEnd;
    if CanEndUntil(p, v, i, r) && Straddles(v, v + i, p) { StraddleUntil(p, v, v + i, r); }
  }

  lemma NothingShown(pattern: string)
    requires pattern != ""
    ensures NoStart("", pattern)
  {
  }

  /** A buffer that holds the pattern's first byte is never taken for one without a start. */
  lemma StartSeen(pattern: string, unread: string)
    requires pattern != "" && pattern[0] in unread
    ensures !NoStart(unread, pattern)
  {
    var i: nat :| i < |unread| && unread[i] == pattern[0] && pattern[0] !in unread[..i]
      by { FirstIndex(pattern[0], unread); }
    var t := unread[..i + 1];
    assert t[..i] == unread[..i];
    assert Border(pattern, t, 1);
    assert forall m :: 0 <= m < i ==> t[m] == unread[..i][m] && t[m] != pattern[0];
    forall k: nat | Border(pattern, t, k) ensures k <= 1 {
      if k > 0 { BorderHead(pattern, t, k); }
    }
    OverlapIs(pattern, t, 1);
    StartsBy(pattern, unread, i);
  }

  lemma FirstIndex(c: char, s: string)
    requires c in s
    ensures exists i: nat :: i < |s| && s[i] == c && c !in s[..i]
  {
    if s[0] == c {
      assert s[..0] == "";
    } else {
      FirstIndex(c, s[1..]);
      var i: nat :| i < |s[1..]| && s[1..][i] == c && c !in s[1..][..i];
      assert s[..i + 1] == [s[0]] + s[1..][..i];
      assert s[i + 1] == c;
    }
  }

  lemma StartsBy(pattern: string, text: string, i: nat)
    requires pattern != "" && i < |text| && Overlap(pattern, text[..i + 1]) == 1
    ensures LastStart(pattern, "", text, -1) >= i
    decreases |text|
  {
    assert "" + text == text;
    if i + 1 == |text| {
      assert text[..i + 1] == text;
    } else {
      assert text[..|text| - 1][..i + 1] == text[..i + 1];
      StartsBy(pattern, text[..|text| - 1], i);
    }
  }
}
