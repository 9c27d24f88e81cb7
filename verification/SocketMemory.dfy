/** class socket_memory: the block buffer over one end of a connection. The socket is
    abstract: `incoming` is everything the peer will still deliver before it closes, split
    arbitrarily into nonempty reads, and `outgoing` is everything written to the peer. */
module SocketMemory {
  import opened Wrappers
  import opened Strings
  import opened BlockBuffer

  lemma Reassociate(a: string, b: string)
    ensures forall s, t :: b == s + t ==> a + b == a + s + t
  {
    forall s, t | b == s + t ensures a + b == a + s + t {
      assert a + (s + t) == a + s + t;
    }
  }

  lemma EraseStep(blocks: seq<Block>, index: nat)
    requires blocks != []
    ensures index < blocks[0].End() ==> Erase(blocks, index) == blocks
    ensures index >= blocks[0].End() ==> Erase(blocks, index) == Erase(blocks[1..], index)
    ensures |Flatten(blocks)| == |blocks[0].data| + |Flatten(blocks[1..])|
  {
  }

  lemma EraseNone(index: nat)
    ensures Erase([], index) == []
  {
  }

  lemma JoinNext(blocks: seq<Block>, i: nat, data: string)
    requires i < |blocks|
    ensures data + Flatten(blocks[i..]) == data + blocks[i].data + Flatten(blocks[i + 1..])
  {
    assert blocks[i..][1..] == blocks[i + 1..];
  }

  lemma JoinEnds(blocks: seq<Block>)
    ensures "" + Flatten(blocks[0..]) == Flatten(blocks) && Flatten(blocks[|blocks|..]) == ""
  {
    assert blocks[0..] == blocks;
  }

  /** How much one read can bring. */
  type Amount = n: nat | n > 0 witness 1

  /** What async_read_until can have read of `s` when the delimiter is there, after `have`: it
      reads at most `most` bytes at a time, and stops after the first read that brings it. */
  ghost predicate CanRead(have: string, s: string, d: string, most: Amount, r: string)
    decreases |s|
  {
    if Find(have, d).Some? then r == have
    else exists n: nat :: 1 <= n <= most && n <= |s| && CanRead(have + s[..n], s[n..], d, most, r)
  }

  /** Before the delimiter is there fewer bytes have been read than it ends at. */
  lemma NotYetRead(have: string, s: string, d: string)
    requires Find(have + s, d).Some? && d != ""
    ensures Find(have, d).None? <==> |have| < FirstEnd(have + s, d)
  {
    var k := Find(have + s, d).value;
    if Find(have, d).Some? {
      FindInPrefix(have, s, d);
    } else if k + |d| <= |have| {
      OccursInPrefix(have, s, d, k);
    }
  }

  /** Under some fragmentation the bytes read are these, exactly when they go through the
      delimiter and not further than one read can from its last byte. */
  lemma ReadExactly(s: string, d: string, most: Amount, r: string)
    requires Find(s, d).Some? && d != ""
    ensures CanRead("", s, d, most, r) <==> r <= s && FirstEnd(s, d) <= |r| < FirstEnd(s, d) + most
  {
    assert "" + s == s;
    NotYetRead("", s, d);
    ReadOn("", s, d, most, r);
  }

  lemma {:induction false} ReadOn(have: string, s: string, d: string, most: Amount, r: string)
    requires Find(have + s, d).Some? && d != "" && Find(have, d).None?
    ensures var all, e := have + s, FirstEnd(have + s, d);
            CanRead(have, s, d, most, r) <==> r <= all && e <= |r| < e + most
    decreases |s|
  {
    hide Find, FindFrom, FirstEnd;
    var all, e := have + s, FirstEnd(have + s, d);
    NotYetRead(have, s, d);
    forall n: nat | 1 <= n <= most && n <= |s|
      ensures CanRead(have + s[..n], s[n..], d, most, r)
              <==> if |have| + n < e then r <= all && e <= |r| < e + most else r == all[..|have| + n]
    {
      var more := have + s[..n];
      assert more + s[n..] == all && more == all[..|have| + n];
      NotYetRead(more, s[n..], d);
      if |more| < e { ReadOn(more, s[n..], d, most, r); }
    }
    if r <= all && e <= |r| < e + most {
      var n: nat := if |r| <= |have| + most then |r| - |have| else 1;
      assert CanRead(have + s[..n], s[n..], d, most, r);
    }
  }

  class Memory {
    // What one read of async_read_until brings at most.
    const most: Amount
    var blocks: seq<Block>
    var readIndex: nat
    var writeIndex: nat
    var readOk: bool
    var closed: bool
    var incoming: string
    var outgoing: string

    function State(): Buffer
      reads this
    {
      Buffer(blocks, readIndex, writeIndex)
    }

    ghost predicate Valid()
      reads this
    {
      State().Valid()
    }

    ghost function Unread(): string
      reads this
      requires Valid()
    {
      State().Unread()
    }

    /** Everything that will ever be read: buffered bytes, then the peer's. */
    ghost function Stream(): string
      reads this
      requires Valid()
    {
      Unread() + incoming
    }

    /** No position of the stream comes within 2 GiB of the range of size_t. */
    predicate Fits()
      reads this
    {
      writeIndex + |incoming| <= SIZE_RANGE - INT_LIMIT
    }

    constructor (incoming: string, most: Amount)
      ensures this.most == most
      ensures State() == EMPTY && Valid() && Stream() == incoming
      ensures readOk && !closed && outgoing == "" && this.incoming == incoming
    {
      this.most := most;
      blocks, readIndex, writeIndex := [], 0, 0;
      readOk, closed := true, false;
      this.incoming, outgoing := incoming, "";
    }

    /** One read of at most `max` bytes: some nonempty prefix of what is left, in a new
        block at the end; nothing once the peer has closed. */
    method AsyncLoadSome(max: nat) returns (s: string)
      requires Valid() && max > 0
      modifies this`blocks, this`writeIndex, this`readOk, this`incoming
      ensures Valid()
      ensures old(incoming) == "" <==> s == ""
      ensures s == "" ==> !readOk && State() == old(State()) && incoming == ""
      ensures s != "" ==> readOk == old(readOk) && |s| <= max && State() == Load(old(State()), s)
      ensures Unread() == old(Unread()) + s && old(incoming) == s + incoming
      ensures Stream() == old(Stream()) && writeIndex + |incoming| == old(writeIndex + |incoming|)
    {
      Reassociate(Unread(), incoming);
      if incoming == "" {
        readOk := false;
        return "";
      }
      var n: nat :| 1 <= n <= max && n <= |incoming|;
      s := incoming[..n];
      LoadAppends(State(), s);
      blocks := Emplace(blocks, Block(writeIndex, s));
      writeIndex := writeIndex + n;
      incoming := incoming[n..];
    }

    /** async_read_until on the socket alone: reads until the bytes read contain `d`, keeps
        them all in one block and returns those through the end of `d`. If the peer closes
        first, what was read is dropped. */
    method AsyncLoadUntil(d: string) returns (line: string)
      requires Valid() && 0 < |d| <= 512
      modifies this`blocks, this`writeIndex, this`readOk, this`incoming
      ensures Valid()
      ensures Find(old(incoming), d).None? ==>
                line == "" && !readOk && incoming == "" && State() == old(State()) && Unread() == old(Unread())
      ensures Find(old(incoming), d).Some? ==>
                var e := FirstEnd(old(incoming), d);
                && line == old(incoming)[..e]
                && |incoming| + e <= |old(incoming)|
                && var r := old(incoming)[..|old(incoming)| - |incoming|];
                   && old(incoming) == r + incoming
                   && CanRead("", old(incoming), d, most, r)
                   && State() == Load(old(State()), r)
                   && Unread() == old(Unread()) + r && line <= r
                   && Stream() == old(Stream()) && writeIndex + |incoming| == old(writeIndex + |incoming|)
                   && readOk == old(readOk)
    {
      hide Find, Contains, Buffer.Valid, Buffer.Unread, CanRead;
      Reassociate(Unread(), incoming);
      var r := "";
      ghost var all, before := incoming, State();
      while Find(r, d).None?
        invariant all == r + incoming && State() == old(State()) && readOk == old(readOk)
        invariant Find(all, d).Some? ==> |r| < FirstEnd(all, d) + most
        decreases |incoming|
      {
        if Find(all, d).Some? { NotYetRead(r, incoming, d); }
        if incoming == "" {
          assert r == all;
          readOk := false;
          return "";
        }
        var n: nat :| 1 <= n <= most && n <= |incoming|;
        r := r + incoming[..n];
        incoming := incoming[n..];
      }
      FindInPrefix(r, incoming, d);
      NotYetRead(r, incoming, d);
      ReadExactly(all, d, most, r);
      LoadAppends(before, r);
      var e := FirstEnd(r, d);
      line := r[..e];
      blocks := Emplace(blocks, Block(writeIndex, r));
      writeIndex := writeIndex + |r|;
      assert r == all[..|all| - |incoming|];
    }

    method AsyncWriteAll(s: string)
      modifies this`outgoing
      ensures outgoing == old(outgoing) + s
    {
      outgoing := outgoing + s;
    }

    method GetSome() returns (s: string)
      requires Valid() && State().Reachable()
      ensures s == BlockBuffer.GetSome(State())
      ensures s <= Unread()
      ensures State().Addressable() && |blocks| <= 1 ==> s == Unread()
      ensures |blocks| <= 1 ==> s == Visible(State())
    {
      GetSomeIsPrefix(State());
      VisibleExact(State());
      var i := FindBlock(blocks, LookupKey(readIndex));
      if i.None? {
        return "";
      }
      LookupExact(State());
      var b := blocks[i.value];
      assert readIndex >= b.begin;
      return b.data[readIndex - b.begin..];
    }

    /** Consumes `n` bytes; returns the size of the blocks given up. Asked for more than is
        unread, it gives up every block and leaves the read position past the write position. */
    method RemoveSome(n: nat) returns (mn: nat)
      requires Valid()
      modifies this`blocks, this`readIndex
      ensures State() == Remove(old(State()), n)
      ensures mn + |Flatten(blocks)| == |Flatten(old(blocks))|
      ensures |blocks| <= old(|blocks|)
      ensures blocks == [] <==> n >= |old(Unread())|
      ensures Valid() <==> n <= |old(Unread())|
      ensures n <= |old(Unread())| ==> Unread() == old(Unread())[n..] && Stream() == old(Stream())[n..]
    {
      hide Buffer.Valid, Buffer.Unread, Flatten, Erase;
      ghost var before := State();
      UnreadLength(before);
      if n <= |Unread()| {
        RemoveDrops(before, n);
        UnreadLength(Remove(before, n));
      } else {
        RemoveAll(before, n);
      }
      readIndex := readIndex + n;
      mn := 0;
      EraseNone(readIndex);
      while blocks != []
        invariant readIndex == before.readIndex + n && |blocks| <= |before.blocks|
        invariant Erase(blocks, readIndex) == Erase(before.blocks, readIndex)
        invariant mn + |Flatten(blocks)| == |Flatten(before.blocks)|
        decreases |blocks|
      {
        EraseStep(blocks, readIndex);
        if readIndex < blocks[0].begin + |blocks[0].data| {
          break;
        }
        mn := mn + |blocks[0].data|;
        blocks := blocks[1..];
      }
    }

    /** Joins the blocks into one; returns their size, 0 when there was nothing to join. */
    method MergeSome() returns (sn: nat)
      requires Valid()
      modifies this`blocks
      ensures Valid() && State() == Merge(old(State()))
      ensures Unread() == old(Unread()) && |blocks| <= 1 && Stream() == old(Stream())
      ensures sn == if old(|blocks|) <= 1 then 0 else |Flatten(old(blocks))|
    {
      hide Flatten;
      ghost var before := State();
      MergeKeeps(before);
      JoinEnds(blocks);
      if |blocks| <= 1 {
        return 0;
      }
      var data := "";
      for i := 0 to |blocks|
        invariant State() == before && data + Flatten(blocks[i..]) == Flatten(blocks)
      {
        JoinNext(blocks, i, data);
        data := data + blocks[i].data;
      }
      assert data == data + "";
      sn := |data|;
      blocks := [Block(blocks[0].begin, data)];
    }

    /** Forgets everything buffered. */
    method Reset()
      modifies this`blocks, this`readIndex, this`writeIndex
      ensures Valid() && State() == EMPTY && Unread() == ""
    {
      readIndex, writeIndex := 0, 0;
      blocks := [];
    }

    method Close()
      modifies this`closed
      ensures closed
    {
      closed := true;
    }
  }
}
