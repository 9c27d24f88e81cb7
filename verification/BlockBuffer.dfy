/** The block buffer of socket_memory as a value: what each operation does to the set of
    blocks and the two indices, and why that is a byte queue. */
module BlockBuffer {
  import opened Wrappers
  import opened Strings

  const INT_RANGE := 0x1_0000_0000
  const INT_LIMIT := 0x8000_0000

  /** A received piece and the stream position of its first byte. */
  datatype Block = Block(begin: nat, data: string) {
    function End(): nat { begin + |data| }

    predicate Covers(index: nat) { begin <= index < End() }
  }

  /** std::set<mem_block> in its order, by `begin`, with the read and write positions. */
  datatype Buffer = Buffer(blocks: seq<Block>, readIndex: nat, writeIndex: nat) {

    predicate Contiguous() {
      && (forall k :: 0 <= k < |blocks| ==> blocks[k].data != "")
      && (forall k :: 0 <= k < |blocks| - 1 ==> blocks[k].End() == blocks[k + 1].begin)
    }

    predicate Valid() {
      && Contiguous()
      && if blocks == [] then readIndex == writeIndex
         else blocks[0].Covers(readIndex) && blocks[|blocks| - 1].End() == writeIndex
    }

    /** Bytes received and not yet consumed. */
    function Unread(): string
      requires Valid()
    {
      if blocks == [] then "" else
        SpanLength(blocks);
        Flatten(blocks)[readIndex - blocks[0].begin..]
    }

    /** The positions for which the `int` parameter of the comparators is exact. */
    predicate Addressable() { readIndex < INT_LIMIT }

    /** The positions a size_t can reach before the comparators' own arithmetic wraps. */
    predicate Reachable() { Addressable() || writeIndex <= SIZE_RANGE - INT_LIMIT }
  }

  const EMPTY := Buffer([], 0, 0)

  function Flatten(blocks: seq<Block>): string {
    if blocks == [] then "" else blocks[0].data + Flatten(blocks[1..])
  }

  // ---------- the operations ----------

  /** std::set::emplace: insert in order unless a block with this `begin` is present. */
  function Emplace(blocks: seq<Block>, b: Block): seq<Block> {
    if blocks == [] || b.begin < blocks[0].begin then [b] + blocks
    else if b.begin == blocks[0].begin then blocks
    else [blocks[0]] + Emplace(blocks[1..], b)
  }

  function Load(buf: Buffer, s: string): Buffer {
    Buffer(Emplace(buf.blocks, Block(buf.writeIndex, s)), buf.readIndex, buf.writeIndex + |s|)
  }

  /** Drops the leading blocks that end at or before `index`. */
  function Erase(blocks: seq<Block>, index: nat): seq<Block> {
    if blocks == [] || index < blocks[0].End() then blocks else Erase(blocks[1..], index)
  }

  function Remove(buf: Buffer, n: nat): Buffer {
    Buffer(Erase(buf.blocks, buf.readIndex + n), buf.readIndex + n, buf.writeIndex)
  }

  function Merge(buf: Buffer): Buffer {
    if |buf.blocks| <= 1 then buf
    else buf.(blocks := [Block(buf.blocks[0].begin, Flatten(buf.blocks))])
  }

  /** What the size_t read position becomes when it is passed as `int` and compared with
      size_t again: truncated to 32 bits and sign-extended. */
  function LookupKey(index: nat): nat {
    var low := index % INT_RANGE;
    if low < INT_LIMIT then low else low + SIZE_RANGE - INT_RANGE
  }

  /** std::set::find with the range-overlap comparators: the first block not entirely
      before `key`, if it does not begin after `key`. */
  function FindBlock(blocks: seq<Block>, key: nat): Option<nat> {
    LowerBound(blocks, key, 0)
  }

  function LowerBound(blocks: seq<Block>, key: nat, from: nat): Option<nat>
    decreases |blocks| - from
  {
    if from >= |blocks| then None
    else if !(blocks[from].End() > key) then LowerBound(blocks, key, from + 1)
    else if key < blocks[from].begin then None
    else Some(from)
  }

  function GetSome(buf: Buffer): string
    requires buf.Valid() && buf.Reachable()
  {
    match FindBlock(buf.blocks, LookupKey(buf.readIndex))
    case None => ""
    case Some(k) =>
      LookupExact(buf);
      buf.blocks[k].data[buf.readIndex - buf.blocks[k].begin..]
  }

  // ---------- sequences of blocks ----------

  lemma SpanLength(blocks: seq<Block>)
    requires blocks != []
    requires forall k :: 0 <= k < |blocks| - 1 ==> blocks[k].End() == blocks[k + 1].begin
    ensures |Flatten(blocks)| == blocks[|blocks| - 1].End() - blocks[0].begin
  {
    if |blocks| > 1 {
      var rest := blocks[1..];
      SpanLength(rest);
    }
  }

  lemma FlattenSnoc(blocks: seq<Block>, b: Block)
    ensures Flatten(blocks + [b]) == Flatten(blocks) + b.data
  {
    if blocks == [] {
      assert blocks + [b] == [b];
      assert Flatten([b]) == b.data + Flatten([]) == b.data;
    } else {
      assert (blocks + [b])[1..] == blocks[1..] + [b];
    }
  }

  /** Blocks are in order: each block begins at or after the end of the ones before it. */
  lemma Ordered(buf: Buffer, i: nat, k: nat)
    requires buf.Contiguous() && i < k < |buf.blocks|
    ensures buf.blocks[i].End() <= buf.blocks[k].begin
  {
    if i + 1 < k {
      Ordered(buf, i, k - 1);
    }
  }

  // ---------- lookup ----------

  lemma LowerBoundSkips(buf: Buffer, key: nat, from: nat, k: nat)
    requires buf.Contiguous() && from <= k < |buf.blocks| && buf.blocks[k].Covers(key)
    ensures LowerBound(buf.blocks, key, from) == Some(k)
    decreases k - from
  {
    if from < k {
      Ordered(buf, from, k);
      LowerBoundSkips(buf, key, from + 1, k);
    }
  }

  /** The range-overlap lookup returns the one block that covers the position. */
  lemma FindCovers(buf: Buffer, key: nat, k: nat)
    requires buf.Contiguous()
    ensures FindBlock(buf.blocks, key) == Some(k) <==> k < |buf.blocks| && buf.blocks[k].Covers(key)
  {
    if k < |buf.blocks| && buf.blocks[k].Covers(key) {
      LowerBoundSkips(buf, key, 0, k);
    }
    LowerBoundResult(buf.blocks, key, 0);
  }

  lemma LowerBoundResult(blocks: seq<Block>, key: nat, from: nat)
    ensures var r := LowerBound(blocks, key, from);
            r.Some? ==> r.value < |blocks| && blocks[r.value].Covers(key)
    decreases |blocks| - from
  {
  }

  /** The read position survives the narrowing as one in a block that begins at `begin`. */
  predicate Hits(begin: nat, index: nat) {
    index % INT_RANGE < INT_LIMIT && begin <= index % INT_RANGE
  }

  /** Below 2 GiB it always does, from there to 4 GiB never. */
  lemma HitsBelow(begin: nat, index: nat)
    requires begin <= index < 0x1_0000_0000
    ensures Hits(begin, index) <==> index < 0x8000_0000
  {
  }

  /** The lookup finds the block being read or nothing; it finds it exactly when the position
      survives the narrowing to `int`: its low 32 bits are not negative and not before the
      block. (Stream positions are themselves size_t values.) */
  lemma LookupExact(buf: Buffer)
    requires buf.Valid() && buf.Reachable()
    ensures var r := FindBlock(buf.blocks, LookupKey(buf.readIndex));
            && (r.Some? ==> r.value == 0 && buf.blocks != [])
            && (r == Some(0) <==> buf.blocks != [] && Hits(buf.blocks[0].begin, buf.readIndex))
  {
    var key := LookupKey(buf.readIndex);
    LowerBoundResult(buf.blocks, key, 0);
    var r := FindBlock(buf.blocks, key);
    if buf.blocks != [] {
      FindCovers(buf, key, 0);
      assert buf.readIndex % INT_RANGE <= buf.readIndex;
      if |buf.blocks| > 1 { Ordered(buf, 0, |buf.blocks| - 1); }
    }
    if r.Some? && r.value > 0 {
      Ordered(buf, 0, r.value);
      if r.value < |buf.blocks| - 1 { Ordered(buf, r.value, |buf.blocks| - 1); }
    }
  }

  /** At 2 GiB the lookup fails although a byte is waiting. */
  lemma LookupLosesBytesAt2GiB()
    ensures var buf := Buffer([Block(INT_LIMIT, "x")], INT_LIMIT, INT_LIMIT + 1);
            buf.Valid() && buf.Unread() == "x" && FindBlock(buf.blocks, LookupKey(buf.readIndex)) == None
  {
    var buf := Buffer([Block(INT_LIMIT, "x")], INT_LIMIT, INT_LIMIT + 1);
    assert Flatten(buf.blocks) == "x" + Flatten([]) == "x";
    assert LookupKey(INT_LIMIT) == INT_LIMIT + SIZE_RANGE - INT_RANGE;
    LowerBoundResult(buf.blocks, LookupKey(INT_LIMIT), 0);
  }

  // ---------- each operation is the queue operation ----------

  lemma EmplaceAtEnd(buf: Buffer, b: Block)
    requires buf.Contiguous()
    requires buf.blocks != [] ==> buf.blocks[|buf.blocks| - 1].End() == b.begin
    ensures Emplace(buf.blocks, b) == buf.blocks + [b]
    decreases |buf.blocks|
  {
    if buf.blocks != [] {
      if |buf.blocks| > 1 { Ordered(buf, 0, |buf.blocks| - 1); }
      var rest := buf.(blocks := buf.blocks[1..]);
      EmplaceAtEnd(rest, b);
      assert buf.blocks + [b] == [buf.blocks[0]] + (rest.blocks + [b]);
    }
  }

  lemma LoadAppends(buf: Buffer, s: string)
    requires buf.Valid() && s != ""
    ensures Load(buf, s).blocks == buf.blocks + [Block(buf.writeIndex, s)]
    ensures Load(buf, s).Valid() && Load(buf, s).Unread() == buf.Unread() + s
  {
    hide Emplace;
    var b := Block(buf.writeIndex, s);
    EmplaceAtEnd(buf, b);
    AppendValid(buf, b);
    AppendUnread(buf, b);
  }

  lemma AppendUnread(buf: Buffer, b: Block)
    requires buf.Valid() && b.data != "" && b.begin == buf.writeIndex
    requires Buffer(buf.blocks + [b], buf.readIndex, b.End()).Valid()
    ensures Buffer(buf.blocks + [b], buf.readIndex, b.End()).Unread() == buf.Unread() + b.data
  {
    FlattenSnoc(buf.blocks, b);
    if buf.blocks == [] {
      assert buf.blocks + [b] == [b];
      assert b.data[0..] == b.data;
    } else {
      hide Flatten;
      SpanLength(buf.blocks);
      TailOfJoin(Flatten(buf.blocks), b.data, buf.readIndex - buf.blocks[0].begin);
    }
  }

  lemma TailOfJoin(f: string, d: string, o: nat)
    requires o <= |f|
    ensures (f + d)[o..] == f[o..] + d
  {
  }

  lemma AppendValid(buf: Buffer, b: Block)
    requires buf.Valid() && b.data != "" && b.begin == buf.writeIndex
    ensures Buffer(buf.blocks + [b], buf.readIndex, b.End()).Valid()
  {
  }

  /** Consuming the first block's unread part leaves the blocks after it. */
  lemma DropFirst(buf: Buffer)
    requires buf.Valid() && buf.blocks != []
    ensures var rest := Buffer(buf.blocks[1..], buf.blocks[0].End(), buf.writeIndex);
            && rest.Valid() && rest.readIndex - buf.readIndex <= |buf.Unread()|
            && rest.Unread() == buf.Unread()[rest.readIndex - buf.readIndex..]
  {
    SpanLength(buf.blocks);
    var first := buf.blocks[0];
    var rest := Buffer(buf.blocks[1..], first.End(), buf.writeIndex);
    if rest.blocks != [] {
      assert rest.blocks[0] == buf.blocks[1] && rest.blocks[|rest.blocks| - 1] == buf.blocks[|buf.blocks| - 1];
      assert rest.Valid();
      assert Flatten(buf.blocks)[|first.data|..] == Flatten(rest.blocks);
    }
  }

  /** Consuming part of the first block only moves the read position. */
  lemma RemoveWithin(buf: Buffer, n: nat)
    requires buf.Valid() && buf.blocks != [] && buf.readIndex + n < buf.blocks[0].End()
    ensures Remove(buf, n) == buf.(readIndex := buf.readIndex + n)
    ensures Remove(buf, n).Valid() && n <= |buf.Unread()| && Remove(buf, n).Unread() == buf.Unread()[n..]
  {
    SpanLength(buf.blocks);
    if |buf.blocks| > 1 { Ordered(buf, 0, |buf.blocks| - 1); }
  }

  lemma RemovePast(buf: Buffer, n: nat)
    requires buf.blocks != [] && buf.readIndex <= buf.blocks[0].End() <= buf.readIndex + n
    ensures var rest := Buffer(buf.blocks[1..], buf.blocks[0].End(), buf.writeIndex);
            Remove(buf, n) == Remove(rest, buf.readIndex + n - rest.readIndex)
  {
  }

  lemma {:induction false} RemoveDrops(buf: Buffer, n: nat)
    requires buf.Valid() && n <= |buf.Unread()|
    ensures Remove(buf, n).Valid() && Remove(buf, n).Unread() == buf.Unread()[n..]
    ensures |Remove(buf, n).blocks| <= |buf.blocks|
    decreases |buf.blocks|
  {
    if buf.blocks != [] {
      if buf.readIndex + n < buf.blocks[0].End() {
        RemoveWithin(buf, n);
      } else {
        var rest := Buffer(buf.blocks[1..], buf.blocks[0].End(), buf.writeIndex);
        var skip := rest.readIndex - buf.readIndex;
        DropFirst(buf);
        RemovePast(buf, n);
        hide *;
        RemoveDrops(rest, n - skip);
        assert buf.Unread()[skip..][n - skip..] == buf.Unread()[n..];
      }
    }
  }

  /** A removal of more than is unread leaves nothing, and a position that is no longer one. */
  lemma RemoveAll(buf: Buffer, n: nat)
    requires buf.Valid() && n > |buf.Unread()|
    ensures Remove(buf, n).blocks == [] && !Remove(buf, n).Valid()
  {
    UnreadLength(buf);
    EraseAll(buf, buf.readIndex + n);
  }

  lemma {:induction false} EraseAll(buf: Buffer, index: nat)
    requires buf.Contiguous() && (buf.blocks != [] ==> buf.blocks[|buf.blocks| - 1].End() <= index)
    ensures Erase(buf.blocks, index) == []
    decreases |buf.blocks|
  {
    if buf.blocks != [] {
      if |buf.blocks| > 1 { Ordered(buf, 0, |buf.blocks| - 1); }
      EraseAll(buf.(blocks := buf.blocks[1..]), index);
    }
  }

  lemma MergeKeeps(buf: Buffer)
    requires buf.Valid()
    ensures Merge(buf).Valid() && Merge(buf).Unread() == buf.Unread() && |Merge(buf).blocks| <= 1
    ensures Merge(buf).readIndex == buf.readIndex && Merge(buf).writeIndex == buf.writeIndex
  {
    if |buf.blocks| > 1 {
      SpanLength(buf.blocks);
      Ordered(buf, 0, |buf.blocks| - 1);
      var b := Block(buf.blocks[0].begin, Flatten(buf.blocks));
      assert Flatten([b]) == b.data + Flatten([]) == b.data;
    }
  }

  /** get_some is the unread part of the first block: a prefix of the unread bytes, and all of
      them when at most one block is held; nothing only when nothing is unread or the lookup
      misses, which it does not below 2 GiB. */
  lemma GetSomeIsPrefix(buf: Buffer)
    requires buf.Valid() && buf.Reachable()
    ensures GetSome(buf) <= buf.Unread()
    ensures var found := FindBlock(buf.blocks, LookupKey(buf.readIndex)).Some?;
            && (GetSome(buf) == "" <==> buf.Unread() == "" || !found)
            && (|buf.blocks| <= 1 && found ==> GetSome(buf) == buf.Unread())
            && (buf.Addressable() ==> (found <==> buf.Unread() != ""))
  {
    LookupExact(buf);
    UnreadLength(buf);
    if buf.blocks != [] {
      SpanLength(buf.blocks);
      var first := buf.blocks[0];
      assert Flatten(buf.blocks)[..|first.data|] == first.data;
      if FindBlock(buf.blocks, LookupKey(buf.readIndex)).Some? {
        assert GetSome(buf) == buf.Unread()[..first.End() - buf.readIndex];
      }
      if |buf.blocks| == 1 {
        assert Flatten(buf.blocks) == first.data + Flatten([]) == first.data;
      }
    }
  }

  lemma UnreadLength(buf: Buffer)
    requires buf.Valid()
    ensures |buf.Unread()| == buf.writeIndex - buf.readIndex
    ensures buf.blocks == [] <==> buf.Unread() == ""
  {
    if buf.blocks != [] {
      SpanLength(buf.blocks);
      if |buf.blocks| > 1 { Ordered(buf, 0, |buf.blocks| - 1); }
    }
  }

  // ---------- what a merge and a get_some show ----------

  function Visible(buf: Buffer): string
    requires buf.Valid() && buf.Reachable()
  {
    MergeKeeps(buf);
    GetSome(Merge(buf))
  }

  /** All that is unread, or nothing: nothing exactly when the position does not survive the
      narrowing. */
  lemma VisibleExact(buf: Buffer)
    requires buf.Valid() && buf.Reachable()
    ensures Visible(buf) == "" || Visible(buf) == buf.Unread()
    ensures Visible(buf) == buf.Unread() <==> buf.Unread() == "" || (buf.blocks != [] && Hits(buf.blocks[0].begin, buf.readIndex))
    ensures |buf.blocks| <= 1 ==> GetSome(buf) == Visible(buf)
    ensures buf.readIndex < INT_LIMIT ==> Visible(buf) == buf.Unread()
    ensures INT_LIMIT <= buf.readIndex < INT_RANGE ==> Visible(buf) == ""
  {
    hide Buffer.Unread, FindBlock, Hits;
    MergeKeeps(buf);
    var m := Merge(buf);
    GetSomeIsPrefix(m);
    LookupExact(m);
    UnreadLength(buf);
    UnreadLength(m);
    if buf.blocks != [] {
      if |buf.blocks| > 1 { Ordered(buf, 0, |buf.blocks| - 1); }
      if buf.readIndex < INT_RANGE { HitsBelow(buf.blocks[0].begin, buf.readIndex); }
    }
  }

  // ---------- whole runs ----------

  datatype Op = OpLoad(s: string) | OpRemove(n: nat) | OpMerge | OpReset

  function Apply(buf: Buffer, op: Op): Buffer {
    match op
    case OpLoad(s) => Load(buf, s)
    case OpRemove(n) => Remove(buf, n)
    case OpMerge => Merge(buf)
    case OpReset => EMPTY
  }

  function Run(ops: seq<Op>): Buffer {
    if ops == [] then EMPTY else Apply(Run(ops[..|ops| - 1]), ops[|ops| - 1])
  }

  /** Bytes received since the last reset. */
  function Received(ops: seq<Op>): string {
    if ops == [] then "" else
      var before := Received(ops[..|ops| - 1]);
      match ops[|ops| - 1]
      case OpLoad(s) => before + s
      case OpReset => ""
      case _ => before
  }

  /** Bytes consumed since the last reset. */
  function Consumed(ops: seq<Op>): nat {
    if ops == [] then 0 else
      var before := Consumed(ops[..|ops| - 1]);
      match ops[|ops| - 1]
      case OpRemove(n) => before + n
      case OpReset => 0
      case _ => before
  }

  /** Loads bring at least a byte; removals never exceed what was received. */
  ghost predicate Sensible(ops: seq<Op>) {
    ops == [] ||
    (var before := ops[..|ops| - 1];
     && Sensible(before)
     && match ops[|ops| - 1]
        case OpLoad(s) => s != ""
        case OpRemove(n) => Consumed(before) + n <= |Received(before)|
        case _ => true)
  }

  lemma ApplyIsQueue(buf: Buffer, op: Op, received: string)
    requires buf.Valid() && buf.readIndex <= |received| == buf.writeIndex
    requires buf.Unread() == received[buf.readIndex..]
    requires op.OpLoad? ==> op.s != ""
    requires op.OpRemove? ==> buf.readIndex + op.n <= |received|
    ensures Apply(buf, op).Valid()
    ensures op.OpLoad? ==> Apply(buf, op).Unread() == (received + op.s)[buf.readIndex..]
    ensures op.OpRemove? ==> Apply(buf, op).Unread() == received[buf.readIndex + op.n..]
    ensures op.OpMerge? ==> Apply(buf, op).Unread() == received[buf.readIndex..]
  {
    match op
    case OpLoad(s) => LoadAppends(buf, s);
    case OpRemove(n) => RemoveDrops(buf, n);
    case OpMerge => MergeKeeps(buf);
    case OpReset =>
  }

  /** After any run the buffer holds exactly the bytes received and not consumed, and the
      two indices count both. */
  lemma {:induction false} BufferIsQueue(ops: seq<Op>)
    requires Sensible(ops)
    ensures Consumed(ops) <= |Received(ops)|
    ensures Run(ops).Valid() && Run(ops).Unread() == Received(ops)[Consumed(ops)..]
    ensures Run(ops).readIndex == Consumed(ops) && Run(ops).writeIndex == |Received(ops)|
  {
    if ops != [] {
      var before := ops[..|ops| - 1];
      BufferIsQueue(before);
      ApplyIsQueue(Run(before), ops[|ops| - 1], Received(before));
      MergeKeeps(Run(before));
    }
  }

  /** After any run, merging makes get_some the whole unread window or nothing; the window
      exactly when it is empty or the position survives the narrowing, so always below 2 GiB.
      (Stream positions are size_t values.) */
  lemma MergedWindow(ops: seq<Op>)
    requires Sensible(ops) && |Received(ops)| <= SIZE_RANGE - INT_LIMIT
    ensures Run(ops).Valid() && Run(ops).Reachable() && Consumed(ops) <= |Received(ops)|
    ensures var buf, window := Run(ops), Received(ops)[Consumed(ops)..];
            && (Visible(buf) == "" || Visible(buf) == window)
            && (Visible(buf) == window <==> window == "" || (buf.blocks != [] && Hits(buf.blocks[0].begin, Consumed(ops))))
            && (Consumed(ops) < INT_LIMIT ==> Visible(buf) == window)
  {
    hide Visible, Hits;
    BufferIsQueue(ops);
    VisibleExact(Run(ops));
  }
}
