/** parser_header and msg_body_size of src/http/httpmsg.cpp. */
module Headers {
  import Seqs
  import opened Numerals
  import opened Wrappers
  import opened Strings

  const COLON := ": "

  function Lower(c: char): char {
    if 'A' <= c <= 'Z' then (c as int + 32) as char else c
  }

  function ToLower(s: string): (r: string)
    ensures |r| == |s|
  {
    seq(|s|, i requires 0 <= i < |s| => Lower(s[i]))
  }

  // ---------- header blocks as RFC 2616, section 4.2 writes them ----------

  /** A field with its folded continuation lines, each printed after one space. */
  datatype Field = Field(name: string, value: string, folds: seq<string>) {
    predicate Valid() {
      && ':' !in name && '\r' !in name && (name != "" ==> name[0] != ' ')
      && '\r' !in value
      && forall i :: 0 <= i < |folds| ==> '\r' !in folds[i]
    }

    /** What the parser can tell apart: the name ends at the first colon and space, the value and
        each folded line at the first line end. */
    predicate Readable() {
      && Find(name + COLON, COLON) == Some(|name|) && EndsAt(value)
      && forall i :: 0 <= i < |folds| ==> EndsAt(folds[i])
    }

    function FirstLine(): string { name + COLON + value + CRLF }
  }

  predicate EndsAt(line: string) { Find(line + CRLF, CRLF) == Some(|line|) }

  /** Fields whose print the parser reads: no name but the first starts like a folded line. */
  predicate AreReadable(fields: seq<Field>) {
    && (forall i :: 0 <= i < |fields| ==> fields[i].Readable())
    && forall i :: 0 < i < |fields| ==> fields[i].name != "" ==> fields[i].name[0] != ' '
  }

  lemma ValidIsReadable(fields: seq<Field>)
    requires WellFormed(fields)
    ensures AreReadable(fields)
  {
    hide Find, FindFrom;
    forall i | 0 <= i < |fields| ensures fields[i].Readable() {
      var f := fields[i];
      assert f.Valid();
      assert f.name + COLON == f.name + COLON + "";
      FindAfter(f.name + COLON, COLON, f.name, "", ':');
      EndOfLine(f.value);
      forall j | 0 <= j < |f.folds| ensures EndsAt(f.folds[j]) { EndOfLine(f.folds[j]); }
    }
    forall i | 0 < i < |fields| && fields[i].name != "" ensures fields[i].name[0] != ' ' { assert fields[i].Valid(); }
  }

  lemma EndOfLine(line: string)
    requires '\r' !in line
    ensures EndsAt(line)
  {
    assert line + CRLF == line + CRLF + "";
    FindAfter(line + CRLF, CRLF, line, "", '\r');
  }

  function PrintFolds(folds: seq<string>): string {
    if folds == [] then "" else " " + folds[0] + CRLF + PrintFolds(folds[1..])
  }

  function PrintField(f: Field): string {
    f.FirstLine() + PrintFolds(f.folds)
  }

  function Print(fields: seq<Field>): string {
    if fields == [] then "" else PrintField(fields[0]) + Print(fields[1..])
  }

  predicate WellFormed(fields: seq<Field>) {
    forall i :: 0 <= i < |fields| ==> fields[i].Valid()
  }

  /** Each lower-cased name with the first line of its last field. */
  function HeaderMap(h: map<string, string>, fields: seq<Field>): map<string, string>
    decreases |fields|
  {
    if fields == [] then h
    else HeaderMap(h[ToLower(fields[0].name) := fields[0].FirstLine()], fields[1..])
  }

  lemma {:induction false} HeaderMapLast(h: map<string, string>, fields: seq<Field>, k: nat)
    requires k < |fields|
    requires forall j :: k < j < |fields| ==> ToLower(fields[j].name) != ToLower(fields[k].name)
    ensures ToLower(fields[k].name) in HeaderMap(h, fields)
    ensures HeaderMap(h, fields)[ToLower(fields[k].name)] == fields[k].FirstLine()
    decreases |fields|
  {
    var h' := h[ToLower(fields[0].name) := fields[0].FirstLine()];
    if k > 0 {
      HeaderMapLast(h', fields[1..], k - 1);
    } else {
      HeaderMapOther(h', fields[1..], ToLower(fields[0].name));
    }
  }

  lemma {:induction false} HeaderMapOther(h: map<string, string>, fields: seq<Field>, key: string)
    requires forall j :: 0 <= j < |fields| ==> ToLower(fields[j].name) != key
    ensures key in HeaderMap(h, fields) <==> key in h
    ensures key in h ==> HeaderMap(h, fields)[key] == h[key]
    decreases |fields|
  {
    if fields != [] {
      assert ToLower(fields[0].name) != key;
      HeaderMapOther(h[ToLower(fields[0].name) := fields[0].FirstLine()], fields[1..], key);
    }
  }

  // ---------- searching a printed block ----------

  /** Empty, or ending with a line end: what both callers pass. */
  predicate Lines(s: string) {
    s == "" || (|s| >= 2 && s[|s| - 2..] == CRLF)
  }

  lemma LineEnds(s: string)
    requires Lines(s) && s != ""
    ensures Find(s, CRLF).Some?
  {
    assert OccursAt(s, CRLF, |s| - 2);
  }

  /** What follows a line end is again empty or ends with one. */
  lemma LinesAfter(s: string, n: nat)
    requires Lines(s) && 2 <= n <= |s| && s[n - 2..n] == CRLF
    ensures Lines(s[n..])
  {
    if n < |s| {
      assert s[n - 2..n][1] == '\n';
      assert s[|s| - 2..][0] == '\r';
      assert s[n..][|s| - n - 2..] == s[|s| - 2..];
    }
  }

  lemma LinesWithin(s: string, n: nat)
    requires Lines(s) && n + 2 <= |s|
    ensures Lines(s[n..])
  {
    assert s[n..][|s| - n - 2..] == s[|s| - 2..];
  }

  /** A line at the front, and what the cursor moves leave. */
  lemma LineAhead(s: string, line: string, rest: string)
    requires s == line + CRLF + rest && EndsAt(line)
    ensures Find(s, CRLF) == Some(|line|) && |line| + 2 <= |s|
    ensures s[|line| + 2..] == rest && s[..|line| + 2] == line + CRLF
  {
    FindInPrefix(line + CRLF, rest, CRLF);
  }

  lemma NameAhead(s: string, name: string, rest: string)
    requires s == name + COLON + rest && Find(name + COLON, COLON) == Some(|name|)
    ensures Find(s, COLON) == Some(|name|) && |name| + 2 <= |s|
    ensures s[..|name|] == name && s[|name| + 2..] == rest
  {
    FindInPrefix(name + COLON, rest, COLON);
  }

  /** What is found first is found first in what ends with it. */
  lemma FoundAlone(s: string, d: string)
    requires Find(s, d).Some?
    ensures var k := Find(s, d).value;
            && k + |d| <= |s| && Find(s[..k] + d, d) == Some(k) && s == s[..k] + d + s[k + |d|..]
  {
    var k := Find(s, d).value;
    var front := s[..k] + d;
    assert s[k..k + |d|] == d && front + s[k + |d|..] == s;
    forall i | 0 <= i <= k ensures OccursAt(front, d, i) == OccursAt(s, d, i) {
      OccursInPrefix(front, s[k + |d|..], d, i);
    }
    FindIs(front, d, k);
  }

  lemma PrintStart(fields: seq<Field>)
    requires WellFormed(fields)
    ensures Print(fields) != "" ==> Print(fields)[0] != ' ' && Print(fields)[0] != '\r'
    ensures Print(fields) == "" <==> fields == []
  {
    if fields != [] {
      var f := fields[0];
      assert f.Valid();
      assert Print(fields) == f.name + (COLON + f.value + CRLF + PrintFolds(f.folds) + Print(fields[1..]));
    }
  }

  predicate FoldsValid(folds: seq<string>) {
    forall i :: 0 <= i < |folds| ==> '\r' !in folds[i]
  }

  predicate FoldsReadable(folds: seq<string>) {
    forall i :: 0 <= i < |folds| ==> EndsAt(folds[i])
  }

  /** A block that a folded line cannot go on with. */
  predicate NoFold(block: string) { block == "" || block[0] != ' ' }

  /** Still to be skipped: these folded lines, and then the fields after them. */
  predicate FoldsThen(svl: string, folds: seq<string>, next: seq<Field>) {
    FoldsReadable(folds) && AreReadable(next) && NoFold(Print(next)) && svl == PrintFolds(folds) + Print(next)
  }

  lemma FoldsExist(svl: string, folds: seq<string>, next: seq<Field>)
    requires FoldsThen(svl, folds, next) && svl != "" && svl[0] == ' '
    ensures folds != [] && EndsAt(folds[0]) && FoldsReadable(folds[1..])
    ensures svl == " " + folds[0] + CRLF + PrintFolds(folds[1..]) + Print(next)
  {
    hide EndsAt;
    assert "" + Print(next) == Print(next);
    if folds != [] { assert forall i :: 0 <= i < |folds[1..]| ==> folds[1..][i] == folds[i + 1]; }
  }

  lemma FoldAhead(svl: string, folds: seq<string>, next: seq<Field>)
    requires FoldsThen(svl, folds, next) && svl != "" && svl[0] == ' '
    ensures folds != [] && |svl| >= 3 && Find(svl[1..], CRLF) == Some(|folds[0]|)
    ensures |folds[0]| + 2 <= |svl[1..]|
    ensures FoldsReadable(folds[1..]) && svl[1..][|folds[0]| + 2..] == PrintFolds(folds[1..]) + Print(next)
  {
    hide EndsAt, Find, FindFrom;
    FoldsExist(svl, folds, next);
    FoldLine(svl, folds[0], PrintFolds(folds[1..]), Print(next));
  }

  lemma FoldLine(svl: string, fold: string, a: string, b: string)
    requires svl == " " + fold + CRLF + a + b && EndsAt(fold)
    ensures |fold| + 3 <= |svl| && Find(svl[1..], CRLF) == Some(|fold|)
    ensures svl[1..][|fold| + 2..] == a + b
  {
    hide EndsAt, Find, FindFrom;
    assert svl[1..] == fold + CRLF + (a + b);
    LineAhead(svl[1..], fold, a + b);
  }

  lemma FoldsEnd(svl: string, folds: seq<string>, next: seq<Field>)
    requires FoldsThen(svl, folds, next) && (svl == "" || svl[0] != ' ')
    ensures svl == Print(next)
  {
    if folds != [] { FoldsStart(folds, next); }
    assert "" + Print(next) == Print(next);
  }

  lemma FoldsStart(folds: seq<string>, next: seq<Field>)
    requires folds != []
    ensures PrintFolds(folds) + Print(next) != "" && (PrintFolds(folds) + Print(next))[0] == ' '
  {
    assert PrintFolds(folds) == " " + (folds[0] + CRLF + PrintFolds(folds[1..]));
  }

  lemma StartsWithSpace(s: string)
    ensures StartsWith(s, " ") <==> s != "" && s[0] == ' '
  {
    if s != "" { assert s[..1] == [s[0]]; }
  }

  /** The folded lines after a field: each is skipped up to its line end. */
  method SkipFolds(svl0: string, ghost folds: seq<string>, ghost next: seq<Field>)
    returns (svl: string, ghost skipped: seq<string>)
    requires Lines(svl0)
    ensures Lines(svl) && |svl| <= |svl0| && NoFold(svl)
    ensures FoldsReadable(skipped) && svl0 == PrintFolds(skipped) + svl
    ensures FoldsThen(svl0, folds, next) ==> svl == Print(next)
  {
    hide PrintFolds, Print, FoldsReadable, AreReadable, Find, FindFrom, StartsWith, EndsAt;
    svl := svl0;
    skipped := [];
    NothingSkipped(svl);
    ghost var left := folds;
    ghost var ahead := FoldsThen(svl0, folds, next);
    StartsWithSpace(svl);
    while StartsWith(svl, " ")
      invariant StartsWith(svl, " ") <==> svl != "" && svl[0] == ' '
      invariant Lines(svl) && |svl| <= |svl0|
      invariant FoldsReadable(skipped) && svl0 == PrintFolds(skipped) + svl
      invariant ahead ==> FoldsThen(svl, left, next)
      decreases |svl|
    {
      if ahead { FoldAhead(svl, left, next); }
      assert svl[|svl| - 2..][0] == '\r';
      LinesWithin(svl, 1);
      ghost var whole := svl;
      svl := svl[1..];
      LineEnds(svl);
      var end := Find(svl, CRLF).value;
      LinesAfter(svl, end + 2);
      SkippedMore(skipped, whole, end);
      skipped := skipped + [svl[..end]];
      svl := svl[end + 2..];
      StartsWithSpace(svl);
      left := if left == [] then [] else left[1..];
    }
    if ahead { FoldsEnd(svl, left, next); }
  }

  lemma NothingSkipped(svl: string)
    ensures FoldsReadable([]) && svl == PrintFolds([]) + svl
  {
  }

  lemma SkippedMore(skipped: seq<string>, svl: string, end: nat)
    requires FoldsReadable(skipped) && svl != "" && svl[0] == ' ' && Find(svl[1..], CRLF) == Some(end)
    ensures end + 2 <= |svl[1..]|
    ensures FoldsReadable(skipped + [svl[1..][..end]])
    ensures PrintFolds(skipped) + svl == PrintFolds(skipped + [svl[1..][..end]]) + svl[1..][end + 2..]
  {
    hide Find, FindFrom, PrintFolds;
    FoundAlone(svl[1..], CRLF);
    FoldsSnoc(skipped, svl[1..][..end]);
    OneMoreFold(PrintFolds(skipped), svl, svl[1..][..end], svl[1..][end + 2..]);
    hide EndsAt;
    assert forall i :: 0 <= i < |skipped| ==> EndsAt(skipped[i]);
  }

  lemma OneMoreFold(before: string, svl: string, fold: string, rest: string)
    requires svl != "" && svl[0] == ' ' && svl[1..] == fold + CRLF + rest
    ensures before + svl == before + (" " + fold + CRLF) + rest
  {
    assert svl == " " + (fold + CRLF + rest);
  }

  lemma {:induction false} FoldsSnoc(folds: seq<string>, fold: string)
    ensures PrintFolds(folds + [fold]) == PrintFolds(folds) + (" " + fold + CRLF)
  {
    if folds == [] {
      assert [] + [fold] == [fold] && [fold][1..] == [];
    } else {
      FoldsSnoc(folds[1..], fold);
      assert (folds + [fold])[1..] == folds[1..] + [fold];
    }
  }

  /** parser_header. A block is accepted exactly if it is the printed form of readable fields, and
      then mapped to theirs: `fields` is any reading of it, `read` the one it is given. The joined
      value the source collects is never used and is left out. */
  method ParserHeader(block: string, h0: map<string, string>, ghost fields: seq<Field>)
    returns (ok: bool, h: map<string, string>, ghost read: seq<Field>)
    requires Lines(block)
    ensures h0.Keys <= h.Keys && (block == "" ==> ok && h == h0)
    ensures ok ==> AreReadable(read) && block == Print(read) && h == HeaderMap(h0, read)
    ensures AreReadable(fields) && block == Print(fields) ==> ok && h == HeaderMap(h0, fields)
  {
    hide PrintFolds, Print, FoldsThen, Find, FindFrom, AreReadable, ToLower, FieldRest, HeaderMap;
    var svl := block;
    h := h0;
    read := [];
    NothingRead(block, h0);
    ghost var left := fields;
    ghost var ahead := AreReadable(fields) && block == Print(fields);
    while |svl| > 0
      invariant Lines(svl) && h0.Keys <= h.Keys && (block == "" ==> svl == "" && h == h0)
      invariant AreReadable(read) && block == Print(read) + svl && h == HeaderMap(h0, read) && (read != [] ==> NoFold(svl))
      invariant ahead ==> AreReadable(left) && svl == Print(left) && HeaderMap(h, left) == HeaderMap(h0, fields)
      decreases |svl|
    {
      if ahead {
        FieldAhead(svl, left);
        MapAhead(h, left);
      }
      var whole := svl;
      var nameEnd := Find(svl, COLON);
      if nameEnd == None {
        return false, h, read;
      }
      var name := svl[..nameEnd.value];
      ColonInside(svl, nameEnd.value);
      svl := svl[nameEnd.value + 2..];
      var valEnd := Find(svl, CRLF);
      if valEnd == None {
        return false, h, read;
      }
      var line := whole[..nameEnd.value + 2 + valEnd.value + 2];
      assert ahead ==> name == left[0].name && line == left[0].FirstLine();
      h := h[ToLower(name) := line];
      ghost var value := svl[..valEnd.value];
      LinesAfter(svl, valEnd.value + 2);
      svl := svl[valEnd.value + 2..];
      ghost var skipped;
      svl, skipped := SkipFolds(svl, FieldRest(left).0, FieldRest(left).1);
      ReadMore(read, whole, name, value, skipped, svl, h0);
      read := read + [Field(name, value, skipped)];
      left := FieldRest(left).1;
    }
    if ahead { PrintNothing(left); }
    NothingRead(block, h);
    ok := true;
    assert Print(read) + "" == Print(read);
  }

  /** A block reads as one list of fields. */
  lemma {:induction false} OneReading(a: seq<Field>, b: seq<Field>)
    requires AreReadable(a) && AreReadable(b) && Print(a) == Print(b)
    ensures a == b
  {
    hide Print, Find, FindFrom, AreReadable, FoldsThen;
    PrintNothing(a);
    PrintNothing(b);
    if a != [] {
      var s := Print(a);
      FieldAhead(s, a);
      FieldAhead(s, b);
      var f, g := a[0], b[0];
      var rest := s[|f.name| + 2..][|f.value| + 2..];
      assert FromValue(a)[..|f.value|] == f.value && FromValue(b)[..|g.value|] == g.value;
      OneFolding(rest, f.folds, a[1..], g.folds, b[1..]);
      OneReading(a[1..], b[1..]);
      assert f == g;
    }
  }

  lemma {:induction false} OneFolding(svl: string, f: seq<string>, a: seq<Field>, g: seq<string>, b: seq<Field>)
    requires FoldsThen(svl, f, a) && FoldsThen(svl, g, b)
    ensures f == g && Print(a) == Print(b) && AreReadable(a) && AreReadable(b)
    decreases |f|
  {
    hide Find, FindFrom, AreReadable, EndsAt, PrintFolds, Print;
    if svl != "" && svl[0] == ' ' {
      FoldAhead(svl, f, a);
      FoldAhead(svl, g, b);
      var rest := svl[1..][|f[0]| + 2..];
      FirstFold(svl, f, a);
      FirstFold(svl, g, b);
      OneFolding(rest, f[1..], a, g[1..], b);
    } else {
      FoldsEnd(svl, f, a);
      FoldsEnd(svl, g, b);
      NoMoreFolds(svl, f, a);
      NoMoreFolds(svl, g, b);
    }
  }

  lemma FirstFold(svl: string, folds: seq<string>, next: seq<Field>)
    requires FoldsThen(svl, folds, next) && svl != "" && svl[0] == ' '
    ensures folds != [] && 1 + |folds[0]| <= |svl| && svl[1..1 + |folds[0]|] == folds[0]
  {
    hide EndsAt, AreReadable, Print;
    FoldsExist(svl, folds, next);
    assert svl == " " + (folds[0] + CRLF + PrintFolds(folds[1..]) + Print(next));
  }

  lemma NoMoreFolds(svl: string, folds: seq<string>, next: seq<Field>)
    requires FoldsThen(svl, folds, next) && (svl == "" || svl[0] != ' ')
    ensures folds == []
  {
    if folds != [] { FoldsStart(folds, next); }
  }

  /** The block is accepted, and mapped to this. */
  ghost predicate BlockReads(block: string, h: map<string, string>) {
    exists fields :: AreReadable(fields) && block == Print(fields) && h == HeaderMap(map[], fields)
  }

  lemma NothingRead(block: string, h: map<string, string>)
    ensures AreReadable([]) && block == Print([]) + block && HeaderMap(h, []) == h
  {
  }

  lemma ReadMore(read: seq<Field>, whole: string, name: string, value: string, skipped: seq<string>, svl: string, h: map<string, string>)
    requires AreReadable(read) && (read != [] ==> NoFold(whole)) && FoldsReadable(skipped)
    requires Find(whole, COLON) == Some(|name|) && |name| + 2 <= |whole| && name == whole[..|name|]
    requires var rest := whole[|name| + 2..];
             && Find(rest, CRLF) == Some(|value|) && |value| + 2 <= |rest| && value == rest[..|value|]
             && rest[|value| + 2..] == PrintFolds(skipped) + svl
    ensures var f := Field(name, value, skipped);
            && AreReadable(read + [f]) && Print(read) + whole == Print(read + [f]) + svl
            && HeaderMap(h, read + [f]) == HeaderMap(h, read)[ToLower(name) := whole[..|name| + 2 + |value| + 2]]
  {
    hide Find, FindFrom, PrintFolds, Print, ToLower, HeaderMap;
    var f, rest := Field(name, value, skipped), whole[|name| + 2..];
    FoundAlone(whole, COLON);
    FoundAlone(rest, CRLF);
    OneFieldRead(whole, name, value, skipped, svl);
    PrintMore(read, f);
    HeaderMapMore(h, read, f);
    assert f.Readable();
    if read != [] && name != "" { assert whole[0] == name[0]; }
    Seqs.Join(Print(read), PrintField(f), svl);
  }

  lemma OneFieldRead(whole: string, name: string, value: string, skipped: seq<string>, svl: string)
    requires whole == name + COLON + (value + CRLF + (PrintFolds(skipped) + svl))
    ensures var f := Field(name, value, skipped); whole == PrintField(f) + svl && f.FirstLine() == whole[..|name| + 2 + |value| + 2]
  {
  }

  lemma {:induction false} PrintMore(fields: seq<Field>, f: Field)
    ensures Print(fields + [f]) == Print(fields) + PrintField(f)
  {
    hide PrintField;
    if fields == [] {
      assert [] + [f] == [f] && [f][1..] == [];
    } else {
      PrintMore(fields[1..], f);
      assert (fields + [f])[1..] == fields[1..] + [f];
    }
  }

  lemma {:induction false} HeaderMapMore(h: map<string, string>, fields: seq<Field>, f: Field)
    ensures HeaderMap(h, fields + [f]) == HeaderMap(h, fields)[ToLower(f.name) := f.FirstLine()]
    decreases |fields|
  {
    hide ToLower;
    if fields == [] {
      assert fields + [f] == [f] && [f][1..] == [];
    } else {
      HeaderMapMore(h[ToLower(fields[0].name) := fields[0].FirstLine()], fields[1..], f);
      assert (fields + [f])[1..] == fields[1..] + [f];
    }
  }

  lemma PrintNothing(fields: seq<Field>)
    ensures Print(fields) == "" <==> fields == []
  {
  }

  /** What follows the first line of the first field. */
  function FieldRest(fields: seq<Field>): (seq<string>, seq<Field>) {
    if fields == [] then ([], []) else (fields[0].folds, fields[1..])
  }

  /** The line end is not part of a colon and space. */
  lemma ColonInside(s: string, n: nat)
    requires Lines(s) && OccursAt(s, COLON, n)
    ensures n + 2 <= |s| && Lines(s[n + 2..])
  {
    OccursByte(s, COLON, n, 1);
    assert s[|s| - 2..][0] == '\r' && s[|s| - 2..][1] == '\n';
    if n + 3 == |s| { OccursByte(s, COLON, n, 1); }
    if n + 2 < |s| { assert n + 4 <= |s|; LinesWithin(s, n + 2); }
  }

  lemma MapAhead(h: map<string, string>, left: seq<Field>)
    requires AreReadable(left) && left != []
    ensures HeaderMap(h, left) == HeaderMap(h[ToLower(left[0].name) := left[0].FirstLine()], FieldRest(left).1)
    ensures AreReadable(FieldRest(left).1)
  {
    hide ToLower, Find, FindFrom, EndsAt;
    assert forall i :: 0 <= i < |left[1..]| ==> left[1..][i] == left[i + 1];
  }

  /** The text of the first field's value and of everything after it. */
  function FromValue(fields: seq<Field>): string
    requires fields != []
  {
    fields[0].value + CRLF + (PrintFolds(fields[0].folds) + Print(fields[1..]))
  }

  lemma FieldAhead(svl: string, left: seq<Field>)
    requires AreReadable(left) && svl == Print(left) && svl != ""
    ensures left != [] && Find(svl, COLON) == Some(|left[0].name|)
    ensures var f := left[0]; var n := |f.name| + 2; var v := |f.value| + 2;
            && n + v <= |svl| && svl[..|f.name|] == f.name
            && svl[n..] == FromValue(left) && Find(svl[n..], CRLF) == Some(|f.value|)
            && svl[..n + v] == f.FirstLine()
            && FoldsThen(svl[n..][v..], FieldRest(left).0, FieldRest(left).1)
  {
    PrintNothing(left);
    RestReadable(left);
    var f := left[0];
    var rest := PrintFolds(f.folds) + Print(left[1..]);
    Seqs.Regroup(f.name, COLON, f.value, CRLF, PrintFolds(f.folds), Print(left[1..]));
    assert svl == f.name + COLON + FromValue(left);
    hide Print, PrintFolds, Find, FindFrom, AreReadable, EndsAt, FoldsReadable;
    NameAhead(svl, f.name, FromValue(left));
    LineAhead(FromValue(left), f.value, rest);
    FirstLineIs(svl, f.name, f.value, FromValue(left));
  }

  lemma RestReadable(left: seq<Field>)
    requires AreReadable(left) && left != []
    ensures left[0].Readable() && FoldsReadable(left[0].folds) && AreReadable(left[1..]) && NoFold(Print(left[1..]))
  {
    hide EndsAt, Find, FindFrom;
    assert forall i :: 0 <= i < |left[1..]| ==> left[1..][i] == left[i + 1];
    if |left| > 1 {
      var f := left[1];
      assert Print(left[1..]) == f.name + (COLON + f.value + CRLF + PrintFolds(f.folds) + Print(left[1..][1..]));
      assert f.Readable();
    }
  }

  lemma FirstLineIs(s: string, name: string, value: string, t: string)
    requires s == name + COLON + t && value + CRLF <= t
    ensures |name| + 2 + |value| + 2 <= |s| && s[..|name| + 2 + (|value| + 2)] == name + COLON + value + CRLF
  {
  }

  // ---------- Content-Length ----------

  const CONTENT_LENGTH := "content-length"

  predicate IsDigit(c: char) { '0' <= c <= '9' }

  predicate AllDigits(s: string) {
    forall i :: 0 <= i < |s| ==> IsDigit(s[i])
  }

  function DecValue(s: string): nat
    requires AllDigits(s)
  {
    if s == "" then 0 else 10 * DecValue(s[..|s| - 1]) + (s[|s| - 1] as int - '0' as int)
  }

  /** The longest run of digits at the front, at most `max` of them. */
  function DigitRun(s: string, max: nat): (r: string)
    ensures AllDigits(r) && r <= s && |r| <= max
    ensures |r| < max && |r| < |s| ==> !IsDigit(s[|r|])
  {
    if s == "" || max == 0 || !IsDigit(s[0]) then "" else [s[0]] + DigitRun(s[1..], max - 1)
  }

  /** The first number in the line: 0 alone, or up to 11 digits. */
  function BodySize(line: string): Option<nat> {
    if line == "" then None
    else if line[0] == '0' then Some(0)
    else if IsDigit(line[0]) then Some(DecValue(DigitRun(line, 11)))
    else BodySize(line[1..])
  }

  function MsgBodySize(h: map<string, string>): Option<nat> {
    if CONTENT_LENGTH in h then BodySize(h[CONTENT_LENGTH]) else None
  }

  lemma DigitRunIs(s: string, digits: string, rest: string, max: nat)
    requires s == digits + rest && AllDigits(digits) && rest != "" && !IsDigit(rest[0])
    ensures DigitRun(s, max) == if |digits| <= max then digits else digits[..max]
  {
    if digits != "" && max > 0 {
      DigitRunIs(s[1..], digits[1..], rest, max - 1);
    } else if digits == "" {
      assert s == rest;
    }
  }

  lemma {:induction false} DecPrefix(s: string, k: nat)
    requires AllDigits(s) && k <= |s|
    ensures DecValue(s[..k]) <= DecValue(s)
    ensures k < |s| && 0 < DecValue(s[..k]) ==> DecValue(s[..k]) < DecValue(s)
  {
    if k == |s| {
      assert s[..k] == s;
    } else {
      var t := s[..|s| - 1];
      DecPrefix(t, k);
      assert t[..k] == s[..k];
    }
  }

  lemma DecPositive(s: string)
    requires AllDigits(s) && s != "" && s[0] != '0'
    ensures DecValue(s) > 0
  {
    if |s| == 1 {
      assert s[..0] == "";
    } else {
      DecPositive(s[..|s| - 1]);
    }
  }

  /** A Content-Length is read as its value exactly when it has no leading zero and at most 11
      digits, or is zero: longer ones are cut, and "007" is read as 0. */
  lemma {:induction false} ContentLengthExactly(before: string, digits: string)
    requires forall i :: 0 <= i < |before| ==> !IsDigit(before[i])
    requires AllDigits(digits) && digits != ""
    ensures BodySize(before + digits + CRLF) == Some(DecValue(digits))
            <==> (digits[0] != '0' && |digits| <= 11) || DecValue(digits) == 0
    decreases |before|
  {
    var line := before + digits + CRLF;
    if before != "" {
      assert line[1..] == before[1..] + digits + CRLF;
      ContentLengthExactly(before[1..], digits);
    } else {
      assert line == digits + CRLF;
      if digits[0] != '0' {
        DecPositive(digits);
        DigitRunIs(line, digits, CRLF, 11);
        if |digits| > 11 {
          DecPositive(digits[..11]);
          DecPrefix(digits, 11);
        }
      }
    }
  }

  /** A line without a digit has no length. */
  lemma {:induction false} NoLength(line: string)
    requires forall i :: 0 <= i < |line| ==> !IsDigit(line[i])
    ensures BodySize(line) == None
  {
    if line != "" {
      assert forall i :: 0 <= i < |line[1..]| ==> line[1..][i] == line[i + 1];
      NoLength(line[1..]);
    }
  }

  /** The digits are these, and each is worth its place among them. */
  lemma DigitsExactly(c: char)
    ensures IsDigit(c) <==> c in DECIMAL
    ensures forall i :: 0 <= i < 10 && c == DECIMAL[i] ==> c as int - '0' as int == i
  {
    forall i | 0 <= i < 10 ensures DECIMAL[i] as int == '0' as int + i { DecimalAt(i); }
    if IsDigit(c) { assert DECIMAL[c as int - '0' as int] == c; }
  }

  lemma DecimalAt(i: nat)
    requires i < 10
    ensures DECIMAL[i] as int == '0' as int + i
  {
  }

  /** A number written in decimal is worth what it says, and no longer than 11 digits exactly if
      it is below 10^11. */
  lemma {:induction false} WrittenInDecimal(n: nat)
    ensures AllDigits(Written(n, DECIMAL)) && DecValue(Written(n, DECIMAL)) == n
    ensures Written(n, DECIMAL)[0] == '0' <==> n == 0
    ensures |Written(n, DECIMAL)| <= 11 <==> n < 100_000_000_000
  {
    hide Written, IsDigit, Power, DecValue;
    DigitsExactly(DECIMAL[n % 10]);
    WrittenStep(n, DECIMAL);
    if n < 10 {
      DecStep("", DECIMAL[n]);
      assert "" + [DECIMAL[n]] == [DECIMAL[n]] && n % 10 == n;
    } else {
      WrittenInDecimal(n / 10);
      DecStep(Written(n / 10, DECIMAL), DECIMAL[n % 10]);
    }
    forall i: nat | 0 < i < 10 ensures DECIMAL[i] != DECIMAL[0] == '0' { DecimalAt(i); DecimalAt(0); }
    FirstDigit(n, DECIMAL);
    WrittenLength(n, DECIMAL, 11);
    PowerOf10();
  }

  lemma DecStep(s: string, c: char)
    requires AllDigits(s) && IsDigit(c)
    ensures AllDigits(s + [c]) && DecValue(s + [c]) == 10 * DecValue(s) + (c as int - '0' as int) && DecValue("") == 0
  {
    assert (s + [c])[..|s|] == s;
  }

  lemma PowerOf10()
    ensures Power(10, 11) == 100_000_000_000
  {
    assert Power(10, 4) == 10_000;
    assert Power(10, 8) == 100_000_000;
  }

  // ---------- names, in small letters and capitals ----------

  const SMALL := "abcdefghijklmnopqrstuvwxyz"
  const CAPITAL := "ABCDEFGHIJKLMNOPQRSTUVWXYZ"

  /** The same character, or the capital of it. */
  predicate Matches(c: char, small: char) {
    c == small || exists k :: 0 <= k < 26 && CAPITAL[k] == c && SMALL[k] == small
  }

  /** `name` is this word, whichever letters are capitals. */
  predicate Spells(name: string, word: string) {
    |name| == |word| && forall i :: 0 <= i < |name| ==> Matches(name[i], word[i])
  }

  /** A word without capitals. */
  predicate IsSmall(word: string) {
    forall i :: 0 <= i < |word| ==> word[i] !in CAPITAL
  }

  lemma Alphabets()
    ensures |SMALL| == |CAPITAL| == 26
    ensures forall k :: 0 <= k < 26 ==> SMALL[k] as int == 'a' as int + k
    ensures forall k :: 0 <= k < 26 ==> CAPITAL[k] as int == 'A' as int + k
  {
  }

  lemma LowerExactly(c: char, small: char)
    requires small !in CAPITAL
    ensures Lower(c) == small <==> Matches(c, small)
  {
    hide SMALL, CAPITAL;
    Alphabets();
    if 'A' <= c <= 'Z' { assert CAPITAL[c as int - 'A' as int] == c; }
  }

  /** Names are compared without regard to capitals. */
  lemma SpellsExactly(name: string, word: string)
    requires IsSmall(word)
    ensures ToLower(name) == word <==> Spells(name, word)
  {
    hide Lower, Matches, SMALL, CAPITAL;
    forall i | 0 <= i < |name| && |name| == |word| ensures Lower(name[i]) == word[i] <==> Matches(name[i], word[i]) {
      LowerExactly(name[i], word[i]);
    }
    if ToLower(name) == word {
      forall i | 0 <= i < |name| ensures Matches(name[i], word[i]) { assert ToLower(name)[i] == word[i]; }
    }
  }

  // ---------- what a header says ----------

  /** The last field of that name. */
  predicate LastNamed(fields: seq<Field>, k: nat, word: string) {
    && k < |fields| && Spells(fields[k].name, word)
    && forall j :: k < j < |fields| ==> !Spells(fields[j].name, word)
  }

  predicate NoneNamed(fields: seq<Field>, word: string) {
    forall j :: 0 <= j < |fields| ==> !Spells(fields[j].name, word)
  }

  /** A name in small letters finds the last field of that name, however that is spelled. */
  lemma NamedInMap(fields: seq<Field>, word: string)
    requires IsSmall(word)
    ensures NoneNamed(fields, word) ==> word !in HeaderMap(map[], fields)
    ensures forall k: nat :: LastNamed(fields, k, word) ==>
              && word in HeaderMap(map[], fields)
              && HeaderMap(map[], fields)[word] == fields[k].name + ": " + fields[k].value + "\r\n"
  {
    hide ToLower, Spells, HeaderMap;
    forall j | 0 <= j < |fields| ensures ToLower(fields[j].name) == word <==> Spells(fields[j].name, word) {
      SpellsExactly(fields[j].name, word);
    }
    if NoneNamed(fields, word) { HeaderMapOther(map[], fields, word); }
    forall k: nat | LastNamed(fields, k, word)
      ensures word in HeaderMap(map[], fields)
              && HeaderMap(map[], fields)[word] == fields[k].name + ": " + fields[k].value + "\r\n"
    {
      HeaderMapLast(map[], fields, k);
    }
  }

  /** The length that the last Content-Length writes is the one read. */
  lemma LengthOfFields(fields: seq<Field>, k: nat, n: nat)
    requires LastNamed(fields, k, "content-length") && fields[k].value == Written(n, DECIMAL) && n < 100_000_000_000
    ensures MsgBodySize(HeaderMap(map[], fields)) == Some(n)
  {
    hide Written, HeaderMap, BodySize, DecValue, Spells;
    SmallNames();
    NamedInMap(fields, "content-length");
    NoDigits(fields[k].name);
    WrittenInDecimal(n);
    var before, digits := fields[k].name + ": ", Written(n, DECIMAL);
    assert before + digits + CRLF == fields[k].name + ": " + fields[k].value + "\r\n";
    assert forall i :: 0 <= i < |before| ==> !IsDigit(before[i]);
    ContentLengthExactly(before, digits);
  }

  lemma SmallNames()
    ensures IsSmall("content-length") && IsSmall("transfer-encoding") && IsSmall("connection")
  {
    hide CAPITAL;
    Alphabets();
  }

  lemma NoDigits(name: string)
    requires Spells(name, "content-length")
    ensures forall i :: 0 <= i < |name| ==> !IsDigit(name[i])
  {
    hide SMALL, CAPITAL;
    Alphabets();
    forall i | 0 <= i < |name| ensures !IsDigit(name[i]) {
      assert Matches(name[i], "content-length"[i]);
    }
  }

  /** Header fields as they are written. */
  function FieldsText(fields: seq<Field>): string {
    if fields == [] then ""
    else fields[0].name + ": " + fields[0].value + "\r\n" + FoldsText(fields[0].folds) + FieldsText(fields[1..])
  }

  function FoldsText(folds: seq<string>): string {
    if folds == [] then "" else " " + folds[0] + "\r\n" + FoldsText(folds[1..])
  }

  lemma {:induction false} FieldsAreText(fields: seq<Field>)
    ensures Print(fields) == FieldsText(fields)
  {
    hide PrintFolds, FoldsText;
    if fields != [] {
      FoldsAreText(fields[0].folds);
      FieldsAreText(fields[1..]);
    }
  }

  lemma {:induction false} FoldsAreText(folds: seq<string>)
    ensures PrintFolds(folds) == FoldsText(folds)
  {
    if folds != [] { FoldsAreText(folds[1..]); }
  }
}
