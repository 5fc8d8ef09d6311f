// linked_buffer: a FIFO byte queue on a list of fixed-size blocks.
module LinkedBuffers {
  import T = Text

  // What the buffer is, seen from outside: where its first unread byte lies in the front block, the
  // unread bytes, and the room left behind them.
  datatype Queue = Queue(offset: nat, data: string, free: nat)

  const EMPTY: Queue := Queue(0, "", 0)

  function Offer(q: Queue, blockSize: nat): Queue {
    if q.free == 0 then q.(free := blockSize) else q
  }

  function Append(q: Queue, more: string): Queue
    requires |more| <= q.free
  {
    q.(data := q.data + more, free := q.free - |more|)
  }

  function Drop(q: Queue, n: nat, blockSize: nat): Queue
    requires n <= |q.data| && blockSize > 0
  {
    Queue((q.offset + n) % blockSize, q.data[n..], q.free)
  }

  // The unread bytes that lie in the front block.
  function Front(q: Queue, blockSize: nat): string {
    if q.offset + |q.data| <= blockSize then q.data
    else if q.offset < blockSize then q.data[..blockSize - q.offset]
    else ""
  }

  ghost function Flat(blocks: seq<array<char>>): string
    reads blocks
  {
    if blocks == [] then [] else blocks[0][..] + Flat(blocks[1..])
  }

  lemma {:induction false} FlatSplit(blocks: seq<array<char>>, i: nat)
    requires i <= |blocks|
    ensures Flat(blocks) == Flat(blocks[..i]) + Flat(blocks[i..])
    decreases i
  {
    if i == 0 {
      assert blocks[0..] == blocks;
    } else {
      assert blocks[..i][1..] == blocks[1..][..i - 1];
      assert blocks[i..] == blocks[1..][i - 1..];
      FlatSplit(blocks[1..], i - 1);
    }
  }

  lemma FlatOne(block: array<char>)
    ensures Flat([block]) == block[..]
  {
    assert [block][1..] == [];
  }

  lemma FlatSnoc(blocks: seq<array<char>>, block: array<char>)
    ensures Flat(blocks + [block]) == Flat(blocks) + block[..]
  {
    var more := blocks + [block];
    FlatSplit(more, |blocks|);
    assert more[..|blocks|] == blocks && more[|blocks|..] == [block];
    FlatOne(block);
  }

  lemma ModOfSum(x: int, b: int)
    requires b > 0
    ensures (x + b) % b == x % b
  {
    var q, r := x / b, x % b;
    assert x + b == b * (q + 1) + r by { assert b * (q + 1) == b * q + b; }
    ModUnique(x + b, b, q + 1, r);
  }

  lemma MulStep(b: int, n: int)
    ensures b * (n + 1) == b * n + b
  {
  }

  lemma MulAtLeast(b: int, d: int)
    requires b > 0 && d >= 1
    ensures b * d >= b && b * -d <= -b
  {
  }

  lemma ModUnique(x: int, b: int, q: int, r: int)
    requires b > 0 && 0 <= r < b && x == b * q + r
    ensures x % b == r
  {
    var d := x / b - q;
    assert b * (x / b) == b * q + b * d;
    assert b * d == r - x % b;
    assert -b < b * d < b;
    if d >= 1 { MulAtLeast(b, d); assert false; }
    if d <= -1 { MulAtLeast(b, -d); assert false; }
  }

  lemma {:induction false} FlatLength(blocks: seq<array<char>>, blockSize: nat)
    requires blockSize > 0 && forall b :: b in blocks ==> b.Length == blockSize
    ensures |Flat(blocks)| == blockSize * |blocks|
    ensures |Flat(blocks)| % blockSize == 0
    decreases |blocks|
  {
    if blocks != [] {
      FlatLength(blocks[1..], blockSize);
      assert blocks[0] in blocks;
      ModOfSum(|Flat(blocks[1..])|, blockSize);
      MulStep(blockSize, |blocks[1..]|);
    }
  }

  lemma PopFront(all: string, front: string, back: string, offset: nat, size: nat)
    requires all == front + back && |front| <= offset && offset + size <= |all|
    ensures all[offset..offset + size] == back[offset - |front|..offset - |front| + size]
  {
  }

  lemma PopBlock(blocks: seq<array<char>>, blockSize: nat, offset: nat, size: nat)
    requires 0 < blockSize <= offset && offset + size <= |Flat(blocks)|
    requires forall b :: b in blocks ==> b.Length == blockSize
    ensures blocks != [] && |Flat(blocks)| == blockSize + |Flat(blocks[1..])|
    ensures Flat(blocks)[offset..offset + size] == Flat(blocks[1..])[offset - blockSize..offset - blockSize + size]
    ensures (offset - blockSize) % blockSize == offset % blockSize
  {
    assert blocks[0] in blocks;
    PopFront(Flat(blocks), blocks[0][..], Flat(blocks[1..]), offset, size);
    ModOfSum(offset - blockSize, blockSize);
  }

  // The size of n whole blocks.
  ghost function Whole(n: nat, blockSize: nat): nat {
    if n == 0 then 0 else Whole(n - 1, blockSize) + blockSize
  }

  lemma {:induction false} WholeIsFlat(blocks: seq<array<char>>, n: nat, blockSize: nat)
    requires n <= |blocks| && forall b :: b in blocks ==> b.Length == blockSize
    ensures |Flat(blocks[..n])| == Whole(n, blockSize)
    decreases n
  {
    if n > 0 {
      WholeIsFlat(blocks, n - 1, blockSize);
      FlatSplit(blocks[..n], n - 1);
      assert blocks[..n][..n - 1] == blocks[..n - 1] && blocks[..n][n - 1..] == [blocks[n - 1]];
      FlatOne(blocks[n - 1]);
      assert blocks[n - 1] in blocks;
    }
  }

  // Bytes written behind the unread ones: those stay, these come first in the room.
  lemma Written(front: string, was: string, now: string, offset: nat, size: nat, start: nat, bytes: string)
    requires offset + size == |front| + start && start + |bytes| <= |was| == |now|
    requires now == was[..start] + bytes + was[start + |bytes|..]
    ensures (front + now)[offset..offset + size] == (front + was)[offset..offset + size]
    ensures (front + now)[offset + size..][..|bytes|] == bytes
  {
    var a := (front + now)[offset + size..][..|bytes|];
    assert forall i :: 0 <= i < |bytes| ==> a[i] == now[start + i] == bytes[i];
  }

  method Write(block: array<char>, start: nat, bytes: string)
    requires start + |bytes| <= block.Length
    modifies block
    ensures block[..] == old(block[..])[..start] + bytes + old(block[..])[start + |bytes|..]
  {
    forall i | 0 <= i < |bytes| { block[start + i] := bytes[i]; }
  }

  // A run of bytes of one block.
  datatype Slice = Slice(block: array<char>, start: nat, size: nat)

  // The first n bytes behind position `base` of block `it`, block by block.
  function SlicesFrom(blocks: seq<array<char>>, blockSize: nat, it: nat, base: nat, n: nat): seq<Slice>
    requires base < blockSize
    decreases n
  {
    if n == 0 || it >= |blocks| then []
    else
      var here := if n < blockSize - base then n else blockSize - base;
      [Slice(blocks[it], base, here)] + SlicesFrom(blocks, blockSize, it + 1, 0, n - here)
  }

  ghost predicate InBlock(s: Slice) {
    s.start + s.size <= s.block.Length
  }

  ghost predicate Within(slices: seq<Slice>, blocks: seq<array<char>>) {
    forall i :: 0 <= i < |slices| ==> InBlock(slices[i]) && slices[i].block in blocks
  }

  ghost function Text(s: Slice): string
    requires InBlock(s)
    reads s.block
  {
    s.block[s.start..s.start + s.size]
  }

  ghost function Bytes(slices: seq<Slice>): string
    requires forall i :: 0 <= i < |slices| ==> InBlock(slices[i])
    reads set i | 0 <= i < |slices| :: slices[i].block
  {
    if slices == [] then [] else Text(slices[0]) + Bytes(slices[1..])
  }

  lemma NextOf(slices: seq<Slice>, slice: Slice, rest: seq<Slice>)
    ensures slices + [slice] + rest == slices + ([slice] + rest)
  {
  }

  lemma BytesCons(slice: Slice, rest: seq<Slice>, blocks: seq<array<char>>)
    requires InBlock(slice) && slice.block in blocks && Within(rest, blocks)
    ensures Within([slice] + rest, blocks) && Bytes([slice] + rest) == Text(slice) + Bytes(rest)
  {
    assert ([slice] + rest)[1..] == rest;
  }

  class LinkedBuffer {
    const blockSize: nat
    var size: nat
    var capacity: nat
    var offset: nat
    var blocks: seq<array<char>>

    ghost predicate Valid()
      reads this, blocks
    {
      && 0 < blockSize
      && (forall b :: b in blocks ==> b.Length == blockSize)
      && (forall i, j :: 0 <= i < j < |blocks| ==> blocks[i] != blocks[j])
      && offset < blockSize && capacity <= blockSize
      && offset + size + capacity == |Flat(blocks)|
    }

    ghost function Contents(): string
      requires Valid()
      reads this, blocks
    {
      Flat(blocks)[offset..offset + size]
    }

    // The bytes lying in the writable room, which commit makes part of the contents.
    ghost function Room(): string
      requires Valid()
      reads this, blocks
    {
      Flat(blocks)[offset + size..]
    }

    ghost function View(): Queue
      requires Valid()
      reads this, blocks
    {
      Queue(offset, Contents(), capacity)
    }

    constructor (blockSize: nat)
      requires 0 < blockSize
      ensures Valid() && this.blockSize == blockSize && View() == EMPTY && blocks == []
    {
      this.blockSize := blockSize;
      size, capacity, offset, blocks := 0, 0, 0, [];
    }

    // The size of the queue counts whole blocks.
    lemma Accounting()
      requires Valid()
      ensures offset + size + capacity == blockSize * |blocks|
      ensures blocks != [] ==> blockSize * (|blocks| - 1) <= offset + size
    {
      FlatLength(blocks, blockSize);
      if blocks != [] {
        MulStep(blockSize, |blocks| - 1);
      }
    }

    method Consume(n: nat)
      requires Valid() && n <= size
      modifies this
      ensures Valid()
      ensures View() == Drop(old(View()), n, blockSize)
      ensures forall b :: b in blocks ==> b in old(blocks)
    {
      ghost var left := Contents()[n..];
      size := size - n;
      offset := offset + n;
      PopSpent(left);
    }

    // The queue with these bytes, but for blocks at its front that hold none of them.
    ghost predicate Holds(left: string)
      reads this, blocks
    {
      && 0 < blockSize && capacity <= blockSize && offset + size + capacity == |Flat(blocks)|
      && (forall b :: b in blocks ==> b.Length == blockSize)
      && (forall i, j :: 0 <= i < j < |blocks| ==> blocks[i] != blocks[j])
      && Flat(blocks)[offset..offset + size] == left
    }

    // The blocks that hold no unread byte any more are given back.
    method PopSpent(ghost left: string)
      requires Holds(left)
      modifies `offset, `blocks
      ensures Valid() && Contents() == left && offset == old(offset) % blockSize
      ensures forall b :: b in blocks ==> b in old(blocks)
    {
      while offset >= blockSize
        invariant Holds(left) && offset % blockSize == old(offset) % blockSize
        invariant forall b :: b in blocks ==> b in old(blocks)
      {
        PopFrontBlock(left);
      }
      ModUnique(offset, blockSize, 0, offset);
    }

    method PopFrontBlock(ghost left: string)
      requires Holds(left) && offset >= blockSize
      modifies `offset, `blocks
      ensures Holds(left) && offset == old(offset) - blockSize && offset % blockSize == old(offset) % blockSize
      ensures forall b :: b in blocks ==> b in old(blocks)
    {
      PopBlock(blocks, blockSize, offset, size);
      offset := offset - blockSize;
      blocks := blocks[1..];
    }

    method Commit(n: nat)
      requires Valid() && n <= capacity
      modifies this
      ensures Valid() && blocks == old(blocks)
      ensures View() == Append(old(View()), old(Room()[..n]))
    {
      size := size + n;
      capacity := capacity - n;
    }

    // The room behind the last byte: never empty, all in the last block, past every unread byte.
    method GetAvailableBlock() returns (room: Slice)
      requires Valid()
      modifies this
      ensures Valid() && InBlock(room) && 0 < room.size == capacity
      ensures View() == Offer(old(View()), blockSize)
      ensures blocks != [] && room.block == blocks[|blocks| - 1]
      ensures room.start + room.size == blockSize
      ensures old(capacity) != 0 ==> blocks == old(blocks)
      ensures old(capacity) == 0 ==> |blocks| == |old(blocks)| + 1 && blocks[..|old(blocks)|] == old(blocks)
      ensures forall b :: b in blocks ==> b in old(blocks) || fresh(b)
      ensures old(capacity) == 0 ==> fresh(room.block)
      ensures offset + size == |Flat(blocks[..|blocks| - 1])| + room.start
    {
      if capacity == 0 {
        room := AddBlock();
      } else {
        LastBlock();
        ghost var before := |Flat(blocks[..|blocks| - 1])|;
        FlatLength(blocks[..|blocks| - 1], blockSize);
        ModOfOffset(before, blockSize - capacity, blockSize);
        room := Slice(blocks[|blocks| - 1], (offset + size) % blockSize, capacity);
      }
    }

    method AddBlock() returns (room: Slice)
      requires Valid() && capacity == 0
      modifies `blocks, `capacity
      ensures Valid() && fresh(room.block) && room.block.Length == blockSize == capacity
      ensures blocks == old(blocks) + [room.block] && fresh(room.block) && room.start == 0 && room.size == blockSize
      ensures Contents() == old(Contents()) && offset + size == |Flat(old(blocks))|
    {
      var block := new char[blockSize];
      FlatSnoc(blocks, block);
      blocks, capacity := blocks + [block], capacity + blockSize;
      room := Slice(block, 0, blockSize);
    }

    lemma LastBlock()
      requires blocks != []
      ensures Flat(blocks) == Flat(blocks[..|blocks| - 1]) + blocks[|blocks| - 1][..]
      ensures blocks[|blocks| - 1] in blocks
    {
      var n := |blocks| - 1;
      FlatSplit(blocks, n);
      assert blocks[n..] == [blocks[n]];
      FlatOne(blocks[n]);
    }

    // The connection writes what it read into the offered room.
    method Receive(room: Slice, bytes: string)
      requires Valid() && InBlock(room) && room.size == capacity && |bytes| <= capacity
      requires blocks != [] && room.block == blocks[|blocks| - 1] && room.start + room.size == blockSize
      modifies room.block
      ensures Valid() && View() == old(View()) && Room()[..|bytes|] == bytes
      ensures room.block[room.start..room.start + |bytes|] == bytes
    {
      ghost var n := |blocks| - 1;
      ghost var front, was := Flat(blocks[..n]), room.block[..];
      LastBlock();
      Write(room.block, room.start, bytes);
      SameFlat(blocks[..n]);
      LastBlock();
      Written(front, was, room.block[..], offset, size, room.start, bytes);
    }

    twostate lemma SameFlat(bs: seq<array<char>>)
      requires forall b :: b in bs ==> old(allocated(b)) && b[..] == old(b[..])
      ensures Flat(bs) == old(Flat(bs))
      decreases |bs|
    {
      if bs != [] {
        assert bs[0] in bs;
        SameFlat(bs[1..]);
      }
    }

    // The first n unread bytes, block by block; nothing when there are fewer. The first slice holds
    // all of them that lie in the front block.
    method GetDataBlocks(n: nat) returns (slices: seq<Slice>)
      requires Valid()
      ensures Within(slices, blocks)
      ensures n <= size ==> Bytes(slices) == Contents()[..n]
      ensures n > size ==> slices == []
      ensures 0 < n <= size ==>
                slices != [] && slices[0].size == if n < blockSize - offset then n else blockSize - offset
      ensures 0 < n == size ==> Text(slices[0]) == Front(View(), blockSize)
    {
      slices := [];
      if n <= size {
        SlicesHold(0, offset, 0, n);
        assert Contents()[0..n] == Contents()[..n];
        slices := Gather(n);
        if 0 < n == size {
          FirstIsFront(slices);
        }
      }
    }

    // What lies in the front block is the first of the slices.
    lemma FirstIsFront(slices: seq<Slice>)
      requires Valid() && slices != [] && Within(slices, blocks) && Bytes(slices) == Contents()
      requires slices[0].size == if size < blockSize - offset then size else blockSize - offset
      ensures Text(slices[0]) == Front(View(), blockSize)
    {
      assert Text(slices[0]) == Contents()[..slices[0].size];
    }

    // The loop of get_data_blocks.
    method Gather(n: nat) returns (slices: seq<Slice>)
      requires Valid() && n <= size
      ensures slices == SlicesFrom(blocks, blockSize, 0, offset, n)
    {
      slices := [];
      var remainder: nat := n;
      var base: nat := offset;
      var it := 0;
      while remainder != 0
        invariant remainder <= n && base < blockSize
        invariant remainder != 0 ==> Reached(it, base, n - remainder)
        invariant slices + SlicesFrom(blocks, blockSize, it, base, remainder)
                  == SlicesFrom(blocks, blockSize, 0, offset, n)
        decreases remainder
      {
        var here := if remainder < blockSize - base then remainder else blockSize - base;
        BlockAt(it, base, n - remainder);
        NextOf(slices, Slice(blocks[it], base, here), SlicesFrom(blocks, blockSize, it + 1, 0, remainder - here));
        slices := slices + [Slice(blocks[it], base, here)];
        remainder := remainder - here;
        base := base - base;
        it := it + 1;
      }
    }

    // Those slices hold the bytes from `done` on.
    lemma {:induction false} SlicesHold(it: nat, base: nat, done: nat, n: nat)
      requires Valid() && base < blockSize && done + n <= size && (n > 0 ==> Reached(it, base, done))
      ensures var slices := SlicesFrom(blocks, blockSize, it, base, n);
              Within(slices, blocks) && Bytes(slices) == Contents()[done..done + n]
      decreases n
    {
      if n > 0 {
        var here := if n < blockSize - base then n else blockSize - base;
        NextSlice(it, base, done, here);
        SlicesHold(it + 1, 0, done + here, n - here);
        var slice, rest := Slice(blocks[it], base, here), SlicesFrom(blocks, blockSize, it + 1, 0, n - here);
        BytesCons(slice, rest, blocks);
        TakeMore(Contents()[done..done + n], Contents(), done, here, n);
      }
    }

    // `done` unread bytes lie before position `base` of block `it`.
    ghost predicate Reached(it: nat, base: nat, done: nat)
      reads this
    {
      it <= |blocks| && offset + done == Whole(it, blockSize) + base
    }

    // The slice that follows `done` bytes lies in block `it`, from `base` on.
    lemma NextSlice(it: nat, base: nat, done: nat, here: nat)
      requires Valid() && Reached(it, base, done)
      requires base + here <= blockSize && 0 < here && done + here <= size
      ensures it < |blocks| && blocks[it] in blocks && blocks[it].Length == blockSize
      ensures Text(Slice(blocks[it], base, here)) == Contents()[done..done + here]
    {
      BlockAt(it, base, done);
      SliceOfBlock(Flat(blocks), Whole(it, blockSize), blocks[it][..], offset + done, base, here);
      T.SliceOfSlice(Flat(blocks), offset, size, done, here);
    }

    lemma BlockAt(it: nat, base: nat, done: nat)
      requires Valid() && Reached(it, base, done) && done < size
      ensures it < |blocks| && blocks[it] in blocks && blocks[it].Length == blockSize
      ensures var at := Whole(it, blockSize);
              at + blockSize <= |Flat(blocks)| && Flat(blocks)[at..at + blockSize] == blocks[it][..]
    {
      assert blocks[..|blocks|] == blocks;
      WholeIsFlat(blocks, it, blockSize);
      FlatSplit(blocks, it);
      FlatSplit(blocks[it..], 1);
      assert blocks[it..][..1] == [blocks[it]];
      FlatOne(blocks[it]);
    }

    // Copies the first n unread bytes to dst, across blocks; nothing when there are fewer.
    method TakeData(dst: array<char>, at: nat, n: nat)
      requires Valid() && dst !in blocks
      requires at + n <= dst.Length
      modifies dst
      ensures Valid() && View() == old(View())
      ensures dst[..] == if n <= size then old(dst[..])[..at] + Contents()[..n] + old(dst[..])[at + n..]
                         else old(dst[..])
    {
      var slices := GetDataBlocks(n);
      if slices != [] {
        ghost var texts := TextsOf(slices);
        CopySlices(dst, at, slices, n, texts);
      } else {
        assert dst[..] == dst[..][..at] + Contents()[..0] + dst[..][at..];
      }
    }
  }

  function Joined(texts: seq<string>): string {
    if texts == [] then [] else texts[0] + Joined(texts[1..])
  }

  // The bytes slice by slice, as values.
  lemma {:induction false} TextsOf(slices: seq<Slice>) returns (texts: seq<string>)
    requires forall i :: 0 <= i < |slices| ==> InBlock(slices[i])
    ensures |texts| == |slices| && forall i :: 0 <= i < |slices| ==> Text(slices[i]) == texts[i]
    ensures Joined(texts) == Bytes(slices)
    decreases |slices|
  {
    texts := [];
    if slices != [] {
      var rest := TextsOf(slices[1..]);
      texts := [Text(slices[0])] + rest;
      assert texts[1..] == rest;
    }
  }

  // The copying loop of take_data.
  method CopySlices(dst: array<char>, at: nat, slices: seq<Slice>, n: nat, ghost texts: seq<string>)
    requires |texts| == |slices| && |Joined(texts)| == n && at + n <= dst.Length
    requires forall i :: 0 <= i < |slices| ==>
               InBlock(slices[i]) && slices[i].block != dst && Text(slices[i]) == texts[i]
    modifies dst
    ensures dst[..] == old(dst[..])[..at] + Joined(texts) + old(dst[..])[at + n..]
  {
    ghost var was := dst[..];
    var ptr := at;
    var remainder: nat := n;
    var k := 0;
    ghost var written := "";
    assert was == was[..at] + written + was[at..];
    while k < |slices|
      invariant k <= |slices| && ptr == at + |written| && remainder + |written| == n && |was| == dst.Length
      invariant forall i :: 0 <= i < |slices| ==> Text(slices[i]) == texts[i]
      invariant written + Joined(texts[k..]) == Joined(texts)
      invariant dst[..] == was[..at] + written + was[ptr..]
    {
      var blk := slices[k];
      NextText(written, texts, k);
      assert |texts[k]| == blk.size <= remainder;
      if blk.size >= remainder {
        assert Slice(blk.block, blk.start, remainder) == blk;
        Paste(dst, ptr, at, was, written, Slice(blk.block, blk.start, remainder), texts[k]);
        return;
      }
      Paste(dst, ptr, at, was, written, blk, texts[k]);
      ptr := ptr + blk.size;
      remainder := remainder - blk.size;
      written := written + texts[k];
      k := k + 1;
    }
  }

  lemma NextText(written: string, texts: seq<string>, k: nat)
    requires k < |texts| && written + Joined(texts[k..]) == Joined(texts)
    ensures written + texts[k] + Joined(texts[k + 1..]) == Joined(texts)
    ensures |written| + |texts[k]| <= |Joined(texts)|
    ensures |written| + |texts[k]| == |Joined(texts)| ==> written + texts[k] == Joined(texts)
  {
    assert texts[k..][1..] == texts[k + 1..];
    assert written + (texts[k] + Joined(texts[k + 1..])) == written + texts[k] + Joined(texts[k + 1..]);
  }

  method Paste(dst: array<char>, ptr: nat, ghost at: nat, ghost was: string, ghost written: string, from: Slice,
               ghost text: string)
    requires ptr == at + |written| && InBlock(from) && from.block != dst && |was| == dst.Length
    requires at + |written| + from.size <= dst.Length && Text(from) == text
    requires dst[..] == was[..at] + written + was[at + |written|..]
    modifies dst
    ensures dst[..] == was[..at] + (written + text) + was[at + |written + text|..]
  {
    Overwrite(was, at, written, Text(from));
    CopySlice(dst, ptr, from);
  }

  // memcpy of a slice.
  method CopySlice(dst: array<char>, at: nat, from: Slice)
    requires InBlock(from) && from.block != dst && at + from.size <= dst.Length
    modifies dst
    ensures dst[..] == old(dst[..])[..at] + Text(from) + old(dst[..])[at + from.size..]
  {
    forall i | 0 <= i < from.size { dst[at + i] := from.block[from.start + i]; }
  }

  // Writing next behind what is already written of text into was.
  lemma Overwrite(was: string, at: nat, written: string, next: string)
    requires at + |written| + |next| <= |was|
    ensures var now := was[..at] + written + was[at + |written|..];
            && |now| == |was|
            && now[..at + |written|] + next + now[at + |written| + |next|..]
            == was[..at] + (written + next) + was[at + |written| + |next|..]
  {
  }

  lemma SliceOfBlock(all: string, at: nat, block: string, to: nat, base: nat, here: nat)
    requires at + |block| <= |all| && all[at..at + |block|] == block
    requires to == at + base && base + here <= |block|
    ensures all[to..to + here] == block[base..base + here]
  {
    T.SliceOfSlice(all, at, |block|, base, here);
  }

  lemma TakeMore(part: string, all: string, done: nat, here: nat, n: nat)
    requires here <= n && done + n <= |all| && part == all[done..done + n]
    ensures part == all[done..done + here] + all[done + here..done + n]
  {
  }

  lemma ModOfOffset(whole: nat, r: nat, b: nat)
    requires b > 0 && whole % b == 0 && r < b
    ensures (whole + r) % b == r
  {
    ModUnique(whole + r, b, whole / b, r);
  }
}
