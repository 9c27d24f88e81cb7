/** The resumable matcher of src/untrust/kmp.h. */
module Kmp {
  import opened Wrappers
  import opened Strings

  // ---------- borders: pattern prefixes that end a text ----------

  /** The first `k` bytes of `p` are the last `k` bytes of `s`. */
  predicate Border(p: string, s: string, k: nat) {
    k <= |p| && k <= |s| && p[..k] == s[|s| - k..]
  }

  /** The longest border of length at most `bound`. */
  function Longest(p: string, s: string, bound: nat): (k: nat)
    requires bound <= |p| && bound <= |s|
    ensures k <= bound && Border(p, s, k)
    ensures forall l: nat :: k < l <= bound ==> !Border(p, s, l)
  {
    if Border(p, s, bound) then bound else Longest(p, s, bound - 1)
  }

  /** The longest prefix of `p` that is a suffix of `s`. */
  function Overlap(p: string, s: string): (k: nat)
    ensures Border(p, s, k)
    ensures forall l: nat :: Border(p, s, l) ==> l <= k
  {
    Longest(p, s, Min(|p|, |s|))
  }

  /** The longest proper prefix of p[..n] that is also its suffix. */
  function PrefixFunction(p: string, n: nat): (k: nat)
    requires 0 < n <= |p|
    ensures k < n
  {
    Longest(p, p[..n], n - 1)
  }

  lemma BorderStep(p: string, s: string, c: char, k: nat)
    ensures Border(p, s + [c], k + 1) <==> Border(p, s, k) && k < |p| && p[k] == c
  {
    if k < |p| && k <= |s| {
      assert p[..k + 1] == p[..k] + [p[k]];
      assert (s + [c])[|s| - k..] == s[|s| - k..] + [c];
    }
  }

  /** Borders below a border are the borders of that pattern prefix. */
  lemma BorderOfBorder(p: string, s: string, k: nat, l: nat)
    requires Border(p, s, k) && l <= k
    ensures Border(p, s, l) <==> Border(p, p[..k], l)
  {
    assert s[|s| - l..] == s[|s| - k..][k - l..];
    assert p[..k][k - l..] == s[|s| - l..];
  }

  lemma BorderHead(p: string, s: string, k: nat)
    requires 0 < k && Border(p, s, k)
    ensures s[|s| - k] == p[0]
  {
    assert p[..k][0] == s[|s| - k..][0];
  }

  lemma BorderTail(p: string, s: string, k: nat)
    requires 0 < k && Border(p, s, k)
    ensures s[|s| - 1] == p[k - 1]
  {
    assert p[..k][k - 1] == s[|s| - k..][k - 1];
  }

  lemma OverlapIs(p: string, s: string, k: nat)
    requires Border(p, s, k)
    requires forall l: nat :: Border(p, s, l) ==> l <= k
    ensures Overlap(p, s) == k
  {
  }

  lemma WholeBorder(p: string, s: string)
    ensures Border(p, s, |p|) ==> OccursAt(s, p, |s| - |p|)
  {
    if |p| <= |s| { assert s[|s| - |p|..|s| - |p| + |p|] == s[|s| - |p|..] && p[..|p|] == p; }
  }

  /** A text contains the pattern when its last byte completes it, or before. */
  lemma ContainsStep(p: string, s: string, c: char)
    requires p != ""
    ensures Contains(s + [c], p) <==> Contains(s, p) || Border(p, s + [c], |p|)
  {
    if Contains(s, p) {
      var i :| OccursAt(s, p, i);
      OccursInPrefix(s, [c], p, i);
    }
    WholeBorder(p, s + [c]);
    if Contains(s + [c], p) && !Contains(s, p) {
      var i :| OccursAt(s + [c], p, i);
      if i + |p| <= |s| {
        OccursInPrefix(s, [c], p, i);
      }
    }
  }

  /** Candidates for extending a match: every longer border fails on the next byte. */
  ghost predicate Tight(p: string, s: string, j: nat, next: Option<char>) {
    && Border(p, s, j)
    && forall l: nat :: j < l && Border(p, s, l) ==> next.Some? && l < |p| && p[l] != next.value
  }

  lemma AdvanceMatch(p: string, s: string, j: nat, c: char, next: Option<char>)
    requires j < |p| && p[j] == c && Tight(p, s, j, Some(c))
    ensures Tight(p, s + [c], j + 1, next) && Overlap(p, s + [c]) == j + 1
  {
    BorderStep(p, s, c, j);
    forall l: nat | Border(p, s + [c], l) ensures l <= j + 1 {
      if l > 0 { BorderStep(p, s, c, l - 1); }
    }
    OverlapIs(p, s + [c], j + 1);
  }

  lemma AdvanceMiss(p: string, s: string, c: char, next: Option<char>)
    requires p != "" && p[0] != c && Tight(p, s, 0, Some(c))
    ensures Tight(p, s + [c], 0, next) && Overlap(p, s + [c]) == 0
  {
    forall l: nat | Border(p, s + [c], l) ensures l == 0 {
      if l > 0 { BorderStep(p, s, c, l - 1); }
    }
    OverlapIs(p, s + [c], 0);
  }

  /** Following the failure link loses no candidate. */
  lemma FallBack(p: string, s: string, j: nat, c: char)
    requires 0 < j < |p| && p[j] != c && Tight(p, s, j, Some(c))
    ensures Tight(p, s, PrefixFunction(p, j), Some(c))
  {
    var j' := PrefixFunction(p, j);
    BorderOfBorder(p, s, j, j');
    forall l: nat | j' < l && Border(p, s, l) ensures l < |p| && p[l] != c {
      if l < j { BorderOfBorder(p, s, j, l); }
    }
  }

  /** Where the matcher last started afresh: the last byte of `text` after which the
      overlap is exactly one, or `before` when there is none. */
  ghost function LastStart(p: string, fed: string, text: string, before: int): (r: int)
    ensures r == before || 0 <= r < |text|
  {
    if text == "" then before
    else if Overlap(p, fed + text) == 1 then |text| - 1
    else LastStart(p, fed, text[..|text| - 1], before)
  }

  /** Bytes that do not occur in the pattern never start a match. */
  lemma LastStartSkips(p: string, s: string, u: string)
    requires p != "" && forall c :: c in u ==> c !in p
    ensures LastStart(p, "", s + u, -1) == LastStart(p, "", s, -1)
    decreases |u|
  {
    if u == "" {
      assert s + u == s;
    } else {
      var t, u' := s + u, u[..|u| - 1];
      assert t[..|t| - 1] == s + u' && "" + t == t;
      assert t[|t| - 1] == u[|u| - 1] && t[|t| - 1] !in p;
      forall l: nat | Border(p, t, l) ensures l == 0 {
        if l > 0 { BorderTail(p, t, l); }
      }
      OverlapIs(p, t, 0);
      LastStartSkips(p, s, u');
    }
  }

  function At(text: string, i: nat): Option<char> {
    if i < |text| then Some(text[i]) else None
  }

  /** The matcher's state before byte `i` of a chunk fed after `fed`. */
  ghost predicate Scanning(p: string, fed: string, text: string, i: nat, j: nat, start: int, before: int) {
    && i <= |text| && j < |p|
    && Tight(p, fed + text[..i], j, At(text, i))
    && !Contains(fed + text[..i], p)
    && start == LastStart(p, fed, text[..i], before)
  }

  lemma ScanStarts(p: string, fed: string, text: string, j: nat, before: int)
    requires j == Overlap(p, fed) < |p| && !Contains(fed, p)
    ensures Scanning(p, fed, text, 0, j, before, before)
  {
    assert fed + text[..0] == fed;
  }

  lemma ScanMatches(p: string, fed: string, text: string, i: nat, j: nat, start: int, before: int)
    requires Scanning(p, fed, text, i, j, start, before) && i < |text| && p[j] == text[i]
    ensures Overlap(p, fed + text[..i + 1]) == j + 1
    ensures j + 1 < |p| ==> Scanning(p, fed, text, i + 1, j + 1, if j == 0 then i else start, before)
    ensures j + 1 == |p| ==> Find(fed + text, p) == Some(|fed| + i + 1 - |p|) && Contains(fed + text, p)
  {
    hide Overlap, Longest, Contains, Border, LastStart, Find, Tight;
    var s, c := fed + text[..i], text[i];
    PrefixStep(fed, text, i);
    LastStartStep(p, fed, text, i, before);
    AdvanceMatch(p, s, j, c, At(text, i + 1));
    ContainsStep(p, s, c);
    BorderLength(p, s + [c], j + 1);
    if j + 1 == |p| { CompletedFirst(p, s, c, fed + text); }
  }

  lemma ScanSkips(p: string, fed: string, text: string, i: nat, start: int, before: int)
    requires Scanning(p, fed, text, i, 0, start, before) && i < |text| && p[0] != text[i]
    ensures Scanning(p, fed, text, i + 1, 0, start, before)
  {
    hide Overlap, Longest, Contains, Border, LastStart, Find, Tight;
    var s, c := fed + text[..i], text[i];
    PrefixStep(fed, text, i);
    LastStartStep(p, fed, text, i, before);
    AdvanceMiss(p, s, c, At(text, i + 1));
    ContainsStep(p, s, c);
    BorderLength(p, s + [c], 0);
  }

  lemma PrefixStep(fed: string, text: string, i: nat)
    requires i < |text|
    ensures fed + text[..i + 1] == fed + text[..i] + [text[i]]
    ensures fed + text[..i] + [text[i]] <= fed + text
  {
  }

  lemma BorderLength(p: string, s: string, k: nat)
    requires Overlap(p, s) == k
    ensures Border(p, s, |p|) ==> |p| <= k
  {
  }

  lemma LastStartStep(p: string, fed: string, text: string, i: nat, before: int)
    requires i < |text|
    ensures LastStart(p, fed, text[..i + 1], before)
            == if Overlap(p, fed + text[..i + 1]) == 1 then i else LastStart(p, fed, text[..i], before)
  {
    assert text[..i + 1][..i] == text[..i];
    hide Overlap;
  }

  /** The pattern completed by `c`, and not before, is the first in any longer text. */
  lemma CompletedFirst(p: string, s: string, c: char, all: string)
    requires p != "" && s + [c] <= all && !Contains(s, p) && Border(p, s + [c], |p|)
    ensures Find(all, p) == Some(|s| + 1 - |p|) && Contains(all, p)
  {
    var t := s + [c];
    var k := |t| - |p|;
    assert t[k..k + |p|] == t[k..] == p[..|p|] == p;
    var rest := all[|t|..];
    assert all == t + rest;
    OccursInPrefix(t, rest, p, k);
    assert OccursAt(all, p, k);
    forall e | 0 <= e < k ensures !OccursAt(all, p, e) {
      OccursInPrefix(t, rest, p, e);
      OccursInPrefix(s, [c], p, e);
    }
    hide OccursAt;
    FindIs(all, p, k);
  }

  lemma ScanFallsBack(p: string, fed: string, text: string, i: nat, j: nat, start: int, before: int)
    requires Scanning(p, fed, text, i, j, start, before) && i < |text| && 0 < j && p[j] != text[i]
    ensures Scanning(p, fed, text, i, PrefixFunction(p, j), start, before)
  {
    FallBack(p, fed + text[..i], j, text[i]);
  }

  lemma ScanEnds(p: string, fed: string, text: string, j: nat, start: int, before: int)
    requires Scanning(p, fed, text, |text|, j, start, before)
    ensures j == Overlap(p, fed + text) && !Contains(fed + text, p)
    ensures start == LastStart(p, fed, text, before)
  {
    assert text[..|text|] == text;
    OverlapIs(p, fed + text, j);
  }

  class KMP {
    const pattern: string
    var lps: array<nat>
    var j: nat
    var matchIndex: int
    var matchLen: nat
    ghost var fed: string    // every byte consumed so far
    ghost var work: nat      // loop iterations so far, over all calls

    ghost predicate LpsValid()
      reads this, lps
    {
      && 0 < |pattern| == lps.Length
      && forall i :: 0 <= i < lps.Length ==> lps[i] == PrefixFunction(pattern, i + 1)
    }

    ghost predicate Valid()
      reads this, lps
    {
      && LpsValid()
      && j == Overlap(pattern, fed)
      && (j < |pattern| ==> matchLen == |fed| && !Contains(fed, pattern))
      && work + j <= 2 * |fed|
    }

    constructor (pattern: string)
      requires pattern != ""
      ensures Valid() && fresh(lps)
      ensures this.pattern == pattern && fed == "" && j == 0 && matchIndex == -1 && work == 0
    {
      this.pattern := pattern;
      this.lps := new nat[|pattern|](_ => 0);
      this.j, this.matchIndex, this.matchLen := 0, -1, 0;
      this.fed, this.work := "", 0;
      new;
      ComputeLPSArray();
      assert !Contains("", pattern);
    }

    method ComputeLPSArray()
      requires 0 < |pattern| == lps.Length
      modifies lps
      ensures LpsValid()
    {
      hide PrefixFunction, Candidate;
      var len: nat, i: nat, m := 0, 1, |pattern|;
      lps[0] := 0;
      BorderOfOne(pattern);
      while i < m
        invariant 1 <= i <= m == lps.Length && len < i
        invariant forall k :: 0 <= k < i ==> lps[k] == PrefixFunction(pattern, k + 1)
        invariant i < m ==> Candidate(pattern, i, len)
        decreases 2 * (m - i) + len
      {
        if pattern[i] == pattern[len] {
          CandidateExtends(pattern, i, len);
          len := len + 1;
          lps[i] := len;
          i := i + 1;
        } else if len != 0 {
          CandidateFallsBack(pattern, i, len);
          len := lps[len - 1];
        } else {
          CandidateEnds(pattern, i);
          lps[i] := 0;
          i := i + 1;
        }
      }
    }

    /** Feeds one more chunk. Stops at the first byte completing the pattern. */
    method Search(text: string) returns (r: int)
      requires Valid() && j < |pattern|
      modifies this
      ensures Valid()
      ensures j <= |pattern|
      ensures j == |pattern| <==> Contains(old(fed) + text, pattern)
      ensures j == |pattern| ==> Find(old(fed) + text, pattern) == Some(r)
      ensures j < |pattern| ==> fed == old(fed) + text
      ensures j < |pattern| ==> matchIndex == LastStart(pattern, old(fed), text, old(matchIndex))
      ensures j < |pattern| ==> r == matchIndex + |old(fed)|
      ensures lps == old(lps)
      ensures work <= old(work) + old(j) + 2 * |text|
    {
      var n, m, i := |text|, |pattern|, 0;
      ghost var fed0, before := fed, matchIndex;
      hide Scanning, Overlap, PrefixFunction, LastStart, Contains, Find, FindFrom, At, OccursAt, Border, Tight;
      ScanStarts(pattern, fed0, text, j, before);
      while i < n
        invariant 0 <= i <= n && j < m
        invariant lps == old(lps) && LpsValid() && matchLen == |fed0|
        invariant Scanning(pattern, fed0, text, i, j, matchIndex, before)
        invariant work + 2 * (n - i) + j <= old(work) + 2 * n + old(j)
        decreases 2 * (n - i) + j
      {
        work := work + 1;
        if pattern[j] == text[i] {
          ScanMatches(pattern, fed0, text, i, j, matchIndex, before);
          if j == 0 {
            matchIndex := i;
          }
          j := j + 1;
          i := i + 1;
        }
        if j == m {
          fed := fed0 + text[..i];
          r := i - j + matchLen;
          return;
        } else if i < n && pattern[j] != text[i] {
          if j != 0 {
            ScanFallsBack(pattern, fed0, text, i, j, matchIndex, before);
            j := lps[j - 1];
          } else {
            ScanSkips(pattern, fed0, text, i, matchIndex, before);
            i := i + 1;
          }
        }
      }
      ScanEnds(pattern, fed0, text, j, matchIndex, before);
      fed := fed0 + text;
      r := matchIndex + matchLen;
      matchLen := matchLen + n;
    }
  }

  // ---------- the failure table ----------

  /** `len` is a border of p[..i] and every longer proper border fails on p[i]. */
  ghost predicate Candidate(p: string, i: nat, len: nat)
    requires 0 < i < |p|
  {
    && len < i && Border(p, p[..i], len)
    && forall l: nat :: len < l < i && Border(p, p[..i], l) ==> p[l] != p[i]
  }

  lemma BorderOfOne(p: string)
    requires p != ""
    ensures PrefixFunction(p, 1) == 0
    ensures 1 < |p| ==> Candidate(p, 1, 0)
  {
  }

  lemma CandidateExtends(p: string, i: nat, len: nat)
    requires 0 < i < |p| && Candidate(p, i, len) && p[i] == p[len]
    ensures PrefixFunction(p, i + 1) == len + 1
    ensures i + 1 < |p| ==> Candidate(p, i + 1, len + 1)
  {
    var t := p[..i + 1];
    assert t == p[..i] + [p[i]];
    BorderStep(p, p[..i], p[i], len);
    forall l: nat | len + 1 < l <= i ensures !Border(p, t, l) {
      BorderStep(p, p[..i], p[i], l - 1);
    }
  }

  lemma CandidateFallsBack(p: string, i: nat, len: nat)
    requires 0 < i < |p| && Candidate(p, i, len) && 0 < len && p[i] != p[len]
    ensures Candidate(p, i, PrefixFunction(p, len))
  {
    var k := PrefixFunction(p, len);
    BorderOfBorder(p, p[..i], len, k);
    forall l: nat | k < l < i && Border(p, p[..i], l) ensures p[l] != p[i] {
      if l < len { BorderOfBorder(p, p[..i], len, l); }
    }
  }

  lemma CandidateEnds(p: string, i: nat)
    requires 0 < i < |p| && Candidate(p, i, 0) && p[i] != p[0]
    ensures PrefixFunction(p, i + 1) == 0
    ensures i + 1 < |p| ==> Candidate(p, i + 1, 0)
  {
    var t := p[..i + 1];
    assert t == p[..i] + [p[i]];
    forall l: nat | 0 < l <= i ensures !Border(p, t, l) {
      BorderStep(p, p[..i], p[i], l - 1);
    }
  }

  // ---------- any split of the text ----------

  /** However a text is split, feeding the pieces finds what one search of the whole
      text would find, in at most two iterations a byte. */
  method SearchPieces(pattern: string, pieces: seq<string>) returns (r: Option<nat>, ghost iterations: nat)
    requires pattern != ""
    ensures r == Find(Concat(pieces), pattern)
    ensures iterations <= 2 * |Concat(pieces)|
  {
    hide Overlap, Longest, PrefixFunction, LastStart, Find;
    var kmp := new KMP(pattern);
    var i := 0;
    while i < |pieces|
      invariant 0 <= i <= |pieces| && kmp.Valid() && kmp.j < |pattern|
      invariant fresh(kmp) && fresh(kmp.lps) && kmp.pattern == pattern
      invariant kmp.fed == Concat(pieces[..i])
    {
      ConcatSnoc(pieces, i);
      ConcatSplit(pieces, i + 1);
      var at := kmp.Search(pieces[i]);
      if kmp.j == |pattern| {
        FindInPrefix(Concat(pieces[..i + 1]), Concat(pieces[i + 1..]), pattern);
        return Some(at), kmp.work;
      }
      i := i + 1;
    }
    assert pieces[..i] == pieces;
    assert !Contains(kmp.fed, pattern);
    return None, kmp.work;
  }
}
