/** Substring search and string_view helpers shared by the relay and the parsers. */
module Strings {
  import opened Wrappers

  const CRLF := "\r\n"

  // Range of std::size_t; differences of unsigned values are taken modulo this.
  const SIZE_RANGE := 0x1_0000_0000_0000_0000

  function Wrap(x: int): (r: nat)
    ensures 0 <= x < 0x1_0000_0000_0000_0000 ==> r == x
    ensures -0x1_0000_0000_0000_0000 <= x < 0 ==> r == x + 0x1_0000_0000_0000_0000
  {
    x % SIZE_RANGE
  }

  function Min(a: int, b: int): int {
    if a < b then a else b
  }

  /** The piece `d` starts at position `i` of `s`. */
  predicate OccursAt(s: string, d: string, i: int) {
    0 <= i && i + |d| <= |s| && s[i..i + |d|] == d
  }

  ghost predicate Contains(s: string, d: string) {
    exists i :: OccursAt(s, d, i)
  }

  /** std::string_view::find: the first position at which `d` starts. */
  function Find(s: string, d: string): (r: Option<nat>)
    ensures r.Some? ==> OccursAt(s, d, r.value) && forall k :: k < r.value ==> !OccursAt(s, d, k)
    ensures r.None? ==> !Contains(s, d)
  {
    FindFrom(s, d, 0)
  }

  function FindFrom(s: string, d: string, from: nat): (r: Option<nat>)
    ensures r.Some? ==> from <= r.value && OccursAt(s, d, r.value)
    ensures r.Some? ==> forall k :: from <= k < r.value ==> !OccursAt(s, d, k)
    ensures r.None? ==> forall k :: from <= k ==> !OccursAt(s, d, k)
    decreases |s| - from
  {
    if OccursAt(s, d, from) then Some(from)
    else if from >= |s| then None
    else FindFrom(s, d, from + 1)
  }

  /** string_view::substr(0, n): the count is clamped to the size. */
  function Take(s: string, n: nat): string {
    if n < |s| then s[..n] else s
  }

  predicate StartsWith(s: string, d: string) {
    |d| <= |s| && s[..|d|] == d
  }

  lemma FindIs(s: string, d: string, i: nat)
    requires OccursAt(s, d, i)
    requires forall k :: 0 <= k < i ==> !OccursAt(s, d, k)
    ensures Find(s, d) == Some(i)
  {
    assert Contains(s, d);
  }

  lemma FindExactly(s: string, d: string)
    ensures Find(s, d).Some? <==> Contains(s, d)
  {
  }

  lemma OccursByte(s: string, d: string, i: int, k: int)
    requires 0 <= k < |d| && OccursAt(s, d, i)
    ensures s[i + k] == d[k]
  {
    assert s[i..i + |d|][k] == d[k];
  }

  lemma OccursHead(s: string, d: string, i: int)
    requires d != "" && OccursAt(s, d, i)
    ensures s[i] == d[0]
  {
    assert s[i..i + |d|][0] == d[0];
  }

  lemma FindAfter(s: string, d: string, line: string, rest: string, c: char)
    requires s == line + d + rest && d != "" && d[0] == c && c !in line
    ensures Find(s, d) == Some(|line|)
  {
    assert s[|line|..|line| + |d|] == d;
    forall k | 0 <= k < |line| ensures !OccursAt(s, d, k) {
      assert s[k] == line[k];
      if OccursAt(s, d, k) { OccursHead(s, d, k); }
    }
    FindIs(s, d, |line|);
  }

  /** An occurrence survives appending. */
  lemma OccursInPrefix(s: string, t: string, d: string, i: int)
    requires i + |d| <= |s|
    ensures OccursAt(s + t, d, i) == OccursAt(s, d, i)
  {
    if 0 <= i {
      assert (s + t)[i..i + |d|] == s[i..i + |d|];
    }
  }

  lemma OccursInSuffix(s: string, t: string, d: string, i: int)
    requires |s| <= i
    ensures OccursAt(s + t, d, i) == OccursAt(t, d, i - |s|)
  {
    if i + |d| <= |s + t| {
      assert (s + t)[i..i + |d|] == t[i - |s|..i - |s| + |d|];
    }
  }

  /** The first occurrence in a prefix is the first occurrence in the whole. */
  lemma FindInPrefix(s: string, t: string, d: string)
    requires Find(s, d).Some?
    ensures Find(s + t, d) == Find(s, d)
  {
    var i := Find(s, d).value;
    OccursInPrefix(s, t, d, i);
    forall k | 0 <= k < i ensures !OccursAt(s + t, d, k) {
      OccursInPrefix(s, t, d, k);
    }
    FindIs(s + t, d, i);
  }

  /** The size of the first line with its line end; npos + 2, which wraps to 1, when there is
      none. */
  function LineLength(msg: string): nat {
    match Find(msg, CRLF)
    case Some(k) => k + 2
    case None => 1
  }

  /** One past the first occurrence of `d`. */
  function FirstEnd(s: string, d: string): (e: nat)
    requires Find(s, d).Some?
    ensures |d| <= e <= |s|
  {
    Find(s, d).value + |d|
  }

  /** The pieces joined back together. */
  function Concat(pieces: seq<string>): string {
    if pieces == [] then "" else pieces[0] + Concat(pieces[1..])
  }

  lemma {:induction false} ConcatSplit(pieces: seq<string>, k: nat)
    requires k <= |pieces|
    ensures Concat(pieces) == Concat(pieces[..k]) + Concat(pieces[k..])
  {
    if k == 0 {
      assert pieces[..0] == [] && pieces[0..] == pieces;
    } else {
      var rest := pieces[1..];
      ConcatSplit(rest, k - 1);
      assert pieces[..k][1..] == rest[..k - 1] && rest[k - 1..] == pieces[k..];
      assert Concat(pieces) == pieces[0] + (Concat(rest[..k - 1]) + Concat(rest[k - 1..]));
    }
  }

  lemma ConcatSnoc(pieces: seq<string>, k: nat)
    requires k < |pieces|
    ensures Concat(pieces[..k + 1]) == Concat(pieces[..k]) + pieces[k]
  {
    ConcatSplit(pieces[..k + 1], k);
    assert pieces[..k + 1][..k] == pieces[..k];
    assert pieces[..k + 1][k..] == [pieces[k]];
    assert Concat([pieces[k]]) == pieces[k] + Concat([]) == pieces[k];
  }
}
