/** The read-only file system of student-distrib/files.c: a flat byte sequence per
    inode, cut into 4 KB data blocks that may lie anywhere on the disk. */
module FileSystem {
  import opened Basics

  const PAGE_SIZE := 0x1000
  const MAX_DENTRIES := 63
  const MAX_BLOCKS := 1023

  datatype Option<+T> = None | Some(value: T)

  /** A directory entry; `name` is the C string that strlen and strncmp see. */
  datatype Dentry = Dentry(name: string, filetype: nat, inode: nat)

  /** An inode. `blocks` holds the 1023 block numbers and then the word that follows
      them in memory, which a read running past the end of a full-size file consults. */
  datatype Inode = Inode(size: nat, blocks: seq<nat>)

  datatype Disk = Disk(numDentries: nat, dentries: seq<Dentry>, inodes: seq<Inode>,
                       numBlocks: nat, data: seq<byte>)

  predicate ValidInode(i: Inode) {
    |i.blocks| == MAX_BLOCKS + 1 && i.size <= MAX_BLOCKS * PAGE_SIZE
  }

  /** The image layout that fs_init takes for granted. */
  predicate ValidDisk(d: Disk) {
    && |d.dentries| == MAX_DENTRIES
    && d.numDentries <= MAX_DENTRIES
    && |d.data| == d.numBlocks * PAGE_SIZE
    && forall n :: 0 <= n < |d.inodes| ==> ValidInode(d.inodes[n])
  }

  // ---- The flat view ----

  predicate BlockOk(d: Disk, n: nat, b: nat)
    requires ValidDisk(d) && n < |d.inodes| && b <= MAX_BLOCKS
  {
    d.inodes[n].blocks[b] < d.numBlocks
  }

  lemma BlockInData(d: Disk, block: nat, at: nat)
    requires ValidDisk(d) && block < d.numBlocks && at < PAGE_SIZE
    ensures block * PAGE_SIZE + at < |d.data|
  {
  }

  /** Byte `i` of file `n`, 0 when it lies in a block that is out of range. */
  function ByteAt(d: Disk, n: nat, i: nat): byte
    requires ValidDisk(d) && n < |d.inodes| && i < d.inodes[n].size
  {
    var block := d.inodes[n].blocks[i / PAGE_SIZE];
    if block < d.numBlocks then
      BlockInData(d, block, i % PAGE_SIZE);
      d.data[block * PAGE_SIZE + i % PAGE_SIZE]
    else 0
  }

  /** The whole file as one byte sequence. */
  function Content(d: Disk, n: nat): (c: seq<byte>)
    requires ValidDisk(d) && n < |d.inodes|
  {
    seq(d.inodes[n].size, i requires 0 <= i < d.inodes[n].size => ByteAt(d, n, i))
  }

  /** Every block a read of the file can consult, including the one after a full last block. */
  predicate AllBlocksOk(d: Disk, n: nat)
    requires ValidDisk(d) && n < |d.inodes|
  {
    forall b :: 0 <= b <= d.inodes[n].size / PAGE_SIZE ==> BlockOk(d, n, b)
  }

  /** The blocks that hold the first `size` bytes can be read. */
  predicate BlocksBelow(d: Disk, n: nat, size: nat)
    requires ValidDisk(d) && n < |d.inodes| && size <= d.inodes[n].size
  {
    forall i :: 0 <= i < size ==> BlockOk(d, n, i / PAGE_SIZE)
  }

  /** The blocks that hold the file can be read; the one after a full last block does not matter. */
  predicate DataBlocksOk(d: Disk, n: nat)
    requires ValidDisk(d) && n < |d.inodes|
  {
    BlocksBelow(d, n, d.inodes[n].size)
  }

  // ---- What one read delivers ----

  /** The last position whose block the read consults. */
  function LastConsulted(d: Disk, n: nat, offset: nat, length: nat): (p: nat)
    requires ValidDisk(d) && n < |d.inodes| && offset < d.inodes[n].size
    ensures offset <= p <= d.inodes[n].size
  {
    Max(offset, Min(offset + length - 1, d.inodes[n].size))
  }

  /** The first block in `b..last` that is out of range, or `last + 1`. */
  function FirstBad(d: Disk, n: nat, b: nat, last: nat): (r: nat)
    requires ValidDisk(d) && n < |d.inodes| && b <= last + 1 <= MAX_BLOCKS + 1
    ensures b <= r <= last + 1
    ensures r <= last ==> !BlockOk(d, n, r)
    ensures forall k :: b <= k < r ==> BlockOk(d, n, k)
    decreases last + 1 - b
  {
    if b > last || !BlockOk(d, n, b) then b else FirstBad(d, n, b + 1, last)
  }

  datatype ReadOutcome = ReadOutcome(ret: int, bytes: seq<byte>)

  /** Return value of read_data and the bytes it has stored when it returns. */
  function ReadSpec(d: Disk, n: nat, offset: nat, length: nat): ReadOutcome
    requires ValidDisk(d)
  {
    if n >= |d.inodes| then ReadOutcome(-1, [])
    else if offset >= d.inodes[n].size then ReadOutcome(0, [])
    else
      var last := LastConsulted(d, n, offset, length) / PAGE_SIZE;
      var bad := FirstBad(d, n, offset / PAGE_SIZE, last);
      if bad <= last then
        ReadOutcome(-1, Content(d, n)[offset..Max(offset, bad * PAGE_SIZE)])
      else
        var end := Min(offset + length, d.inodes[n].size);
        ReadOutcome(end - offset, Content(d, n)[offset..end])
  }

  /** The read consults a block that is out of range. */
  predicate MeetsBadBlock(d: Disk, n: nat, position: nat, length: nat)
    requires ValidDisk(d) && n < |d.inodes|
  {
    position < d.inodes[n].size &&
    exists b :: position / PAGE_SIZE <= b <= LastConsulted(d, n, position, length) / PAGE_SIZE && !BlockOk(d, n, b)
  }

  predicate ReadFails(d: Disk, n: nat, position: nat, length: nat)
    requires ValidDisk(d)
  {
    n >= |d.inodes| || MeetsBadBlock(d, n, position, length)
  }

  /** read_data fails exactly on a bad inode number or a bad block among those consulted. */
  lemma ReadFailsIff(d: Disk, n: nat, offset: nat, length: nat)
    requires ValidDisk(d)
    ensures ReadSpec(d, n, offset, length).ret == -1 <==> ReadFails(d, n, offset, length)
    ensures ReadSpec(d, n, offset, length).ret >= -1
    ensures n < |d.inodes| && offset < d.inodes[n].size && ReadSpec(d, n, offset, length).ret != -1 ==>
            ReadSpec(d, n, offset, length).bytes
            == Content(d, n)[offset..Min(offset + length, d.inodes[n].size)]
  {
  }

  function Slice(c: seq<byte>, offset: nat, length: nat): seq<byte> {
    if offset > |c| then [] else c[offset..Min(offset + length, |c|)]
  }

  /** On a file whose blocks are all good a read behaves like a slice of a flat file. */
  lemma ReadFlat(d: Disk, n: nat, offset: nat, length: nat)
    requires ValidDisk(d) && n < |d.inodes| && AllBlocksOk(d, n)
    ensures var r := ReadSpec(d, n, offset, length);
            r.bytes == Slice(Content(d, n), offset, length) && r.ret == |r.bytes|
  {
  }

  /** A read of a whole file delivers exactly the bytes up to the first block that cannot be read. */
  lemma WholeRead(d: Disk, n: nat)
    requires ValidDisk(d) && n < |d.inodes|
    ensures var size := d.inodes[n].size;
            var bytes := ReadSpec(d, n, 0, size).bytes;
            && bytes <= Content(d, n)
            && (forall m :: 0 < m <= size ==> (m <= |bytes| <==> BlocksBelow(d, n, m)))
            && (bytes == Content(d, n) <==> DataBlocksOk(d, n))
            && (ReadSpec(d, n, 0, size).ret == 0 <==> size == 0)
  {
    var size := d.inodes[n].size;
    if size > 0 {
      var last := LastConsulted(d, n, 0, size) / PAGE_SIZE;
      var bad := FirstBad(d, n, 0, last);
      var bytes := ReadSpec(d, n, 0, size).bytes;
      forall m | 0 < m <= size
        ensures m <= |bytes| <==> BlocksBelow(d, n, m)
      {
        if m > |bytes| {
          assert bad <= last && !BlockOk(d, n, bad * PAGE_SIZE / PAGE_SIZE);
        }
      }
    }
  }

  /** What can be read of the file: its bytes up to the first block that cannot be. */
  function Legible(d: Disk, n: nat): seq<byte>
    requires ValidDisk(d) && n < |d.inodes|
  {
    ReadSpec(d, n, 0, d.inodes[n].size).bytes
  }

  lemma LegibleIs(d: Disk, n: nat, m: nat)
    requires ValidDisk(d) && n < |d.inodes| && m <= d.inodes[n].size
    ensures Legible(d, n) <= Content(d, n) && BlocksBelow(d, n, |Legible(d, n)|)
    ensures BlocksBelow(d, n, m) <==> m <= |Legible(d, n)|
    ensures Legible(d, n) == Content(d, n) <==> DataBlocksOk(d, n)
  {
    WholeRead(d, n);
  }

  predicate BlocksOk(d: Disk, n: nat, first: nat, last: nat)
    requires ValidDisk(d) && n < |d.inodes| && last <= MAX_BLOCKS
  {
    forall b :: first <= b <= last ==> BlockOk(d, n, b)
  }

  /** The read stops at the first bad block it consults, having delivered what lies before it. */
  lemma StopsAtBadBlock(d: Disk, n: nat, offset: nat, length: nat, b: nat)
    requires ValidDisk(d) && n < |d.inodes| && offset < d.inodes[n].size
    requires offset / PAGE_SIZE <= b <= LastConsulted(d, n, offset, length) / PAGE_SIZE
    requires !BlockOk(d, n, b)
    requires forall k :: offset / PAGE_SIZE <= k < b ==> BlockOk(d, n, k)
    ensures Max(offset, b * PAGE_SIZE) <= d.inodes[n].size
    ensures ReadSpec(d, n, offset, length)
            == ReadOutcome(-1, Content(d, n)[offset..Max(offset, b * PAGE_SIZE)])
  {
  }

  /** A read that meets only good blocks delivers everything up to its end or the file's. */
  lemma ReachesEnd(d: Disk, n: nat, offset: nat, length: nat)
    requires ValidDisk(d) && n < |d.inodes| && offset < d.inodes[n].size
    requires BlocksOk(d, n, offset / PAGE_SIZE, LastConsulted(d, n, offset, length) / PAGE_SIZE)
    ensures var end := Min(offset + length, d.inodes[n].size);
            ReadSpec(d, n, offset, length) == ReadOutcome(end - offset, Content(d, n)[offset..end])
  {
  }

  lemma ByteInBlock(d: Disk, n: nat, b: nat, at: nat)
    requires ValidDisk(d) && n < |d.inodes| && at < PAGE_SIZE && b * PAGE_SIZE + at < d.inodes[n].size
    requires b <= MAX_BLOCKS && BlockOk(d, n, b)
    ensures (b * PAGE_SIZE + at) / PAGE_SIZE == b
    ensures d.inodes[n].blocks[b] * PAGE_SIZE + at < |d.data|
    ensures Content(d, n)[b * PAGE_SIZE + at] == d.data[d.inodes[n].blocks[b] * PAGE_SIZE + at]
  {
  }

  /** A buffer with some bytes written over it from `base` on. */
  function Overlaid(was: seq<byte>, base: nat, bytes: seq<byte>): (r: seq<byte>)
    requires base + |bytes| <= |was|
    ensures |r| == |was|
    ensures forall i :: 0 <= i < |r| ==> r[i] == if base <= i < base + |bytes| then bytes[i - base] else was[i]
  {
    was[..base] + bytes + was[base + |bytes|..]
  }

  /** `position` of the file lies at `address` of the disk: `inBlock` bytes into block `current`. */
  predicate Walking(d: Disk, n: nat, current: nat, inBlock: nat, address: nat, position: nat)
    requires ValidDisk(d) && n < |d.inodes|
  {
    && current <= MAX_BLOCKS && inBlock <= PAGE_SIZE && BlockOk(d, n, current)
    && current * PAGE_SIZE + inBlock == position && address == d.inodes[n].blocks[current] * PAGE_SIZE + inBlock
  }

  lemma WalkedByte(d: Disk, n: nat, current: nat, inBlock: nat, address: nat, position: nat)
    requires ValidDisk(d) && n < |d.inodes| && position < d.inodes[n].size
    requires Walking(d, n, current, inBlock, address, position) && inBlock < PAGE_SIZE
    ensures address < |d.data| && d.data[address] == Content(d, n)[position]
  {
    ByteInBlock(d, n, current, inBlock);
  }

  /** `c` is what a walk over the blocks of file `n` meets. */
  ghost predicate Laid(d: Disk, n: nat, c: seq<byte>)
    requires ValidDisk(d) && n < |d.inodes|
  {
    && |c| == d.inodes[n].size
    && forall current: nat, inBlock: nat, address: nat, position: nat ::
         Walking(d, n, current, inBlock, address, position) && inBlock < PAGE_SIZE && position < |c| ==>
           address < |d.data| && d.data[address] == c[position]
  }

  lemma ContentLaid(d: Disk, n: nat)
    requires ValidDisk(d) && n < |d.inodes|
    ensures Laid(d, n, Content(d, n))
  {
    forall current: nat, inBlock: nat, address: nat, position: nat |
      Walking(d, n, current, inBlock, address, position) && inBlock < PAGE_SIZE && position < d.inodes[n].size
      ensures address < |d.data| && d.data[address] == Content(d, n)[position]
    {
      WalkedByte(d, n, current, inBlock, address, position);
    }
  }

  /** A walk that ends because enough is stored or the file ends has consulted exactly the blocks up
      to the one it is in. */
  lemma WalkEnds(d: Disk, n: nat, offset: nat, length: nat, total: nat, current: nat, inBlock: nat, address: nat)
    requires ValidDisk(d) && n < |d.inodes| && offset < d.inodes[n].size && offset + total <= d.inodes[n].size
    requires Walking(d, n, current, inBlock, address, offset + total)
    requires if total == length then (if total > 0 then inBlock > 0 else inBlock < PAGE_SIZE)
             else total < length && offset + total == d.inodes[n].size && inBlock < PAGE_SIZE
    ensures LastConsulted(d, n, offset, length) / PAGE_SIZE == current
  {
  }

  /** A buffer that has taken `total` bytes of the text, from `offset` on, at `base`. */
  predicate Copied(now: seq<byte>, was: seq<byte>, c: seq<byte>, base: nat, offset: nat, total: nat)
    requires |now| == |was| && base + total <= |was| && offset + total <= |c|
  {
    forall i :: 0 <= i < |now| ==> now[i] == if base <= i < base + total then c[offset + i - base] else was[i]
  }

  lemma CopiedNext(now: seq<byte>, was: seq<byte>, c: seq<byte>, base: nat, offset: nat, total: nat)
    requires |now| == |was| && base + total < |was| && offset + total < |c|
    requires Copied(now, was, c, base, offset, total)
    ensures Copied(now[base + total := c[offset + total]], was, c, base, offset, total + 1)
  {
  }

  lemma CopiedIsOverlaid(now: seq<byte>, was: seq<byte>, c: seq<byte>, base: nat, offset: nat, total: nat)
    requires |now| == |was| && base + total <= |was| && offset + total <= |c|
    requires Copied(now, was, c, base, offset, total)
    ensures now == Overlaid(was, base, c[offset..offset + total])
  {
  }

  /** The copy loop of read_data: walks from `offset`, block by block, until `length` bytes
      are stored, the file ends, or the next block number is out of range. */
  method CopyBlocks(d: Disk, n: nat, offset: nat, buf: array<byte>, base: nat, length: nat,
                    ghost c: seq<byte>)
    returns (ret: int, total: nat)
    requires ValidDisk(d) && n < |d.inodes| && offset < d.inodes[n].size && Laid(d, n, c)
    requires BlockOk(d, n, offset / PAGE_SIZE)
    requires base + Min(length, d.inodes[n].size - offset) <= buf.Length
    modifies buf
    ensures total <= length && offset + total <= d.inodes[n].size
    ensures ret != -1 ==>
              && ret == total
              && (total == length || offset + total == d.inodes[n].size)
              && BlocksOk(d, n, offset / PAGE_SIZE, LastConsulted(d, n, offset, length) / PAGE_SIZE)
    ensures ret == -1 ==>
              var b := (offset + total) / PAGE_SIZE;
              && b * PAGE_SIZE == offset + total && offset / PAGE_SIZE < b && total < length
              && BlocksOk(d, n, offset / PAGE_SIZE, b - 1) && !BlockOk(d, n, b)
    ensures Copied(buf[..], old(buf[..]), c, base, offset, total)
  {
    var size := d.inodes[n].size;
    var blocks := d.inodes[n].blocks;
    var current: nat := offset / PAGE_SIZE;
    var inBlock: nat := offset % PAGE_SIZE;
    var address: nat := blocks[current] * PAGE_SIZE + offset % PAGE_SIZE;
    total := 0;
    ghost var first, was := current, buf[..];
    while total < length
      invariant 0 <= total <= length && offset + total <= size
      invariant first <= current && Walking(d, n, current, inBlock, address, offset + total)
      invariant BlocksOk(d, n, first, current)
      invariant if total > 0 then inBlock > 0 else inBlock < PAGE_SIZE
      invariant Copied(buf[..], was, c, base, offset, total)
    {
      if inBlock >= PAGE_SIZE {
        inBlock := 0;
        current := current + 1;
        if blocks[current] >= d.numBlocks {
          return -1, total;
        }
        address := blocks[current] * PAGE_SIZE;
      }
      if total + offset >= size {
        WalkEnds(d, n, offset, length, total, current, inBlock, address);
        return total, total;
      }
      assert Walking(d, n, current, inBlock, address, offset + total);
      CopiedNext(buf[..], was, c, base, offset, total);
      buf[base + total] := d.data[address];
      inBlock := inBlock + 1;
      total := total + 1;
      address := address + 1;
    }
    WalkEnds(d, n, offset, length, total, current, inBlock, address);
    return total, total;
  }

  /** read_data: stores at buf[base..] exactly the bytes of the flat file, and fails exactly
      when ReadSpec does. `total` counts the bytes stored, also by a read that fails. */
  method ReadData(d: Disk, n: nat, offset: nat, buf: array<byte>, base: nat, length: nat) returns (ret: int, total: nat)
    requires ValidDisk(d)
    requires base <= buf.Length
    requires n < |d.inodes| && offset < d.inodes[n].size ==>
               base + Min(length, d.inodes[n].size - offset) <= buf.Length
    modifies buf
    ensures ret == ReadSpec(d, n, offset, length).ret && total == |ReadSpec(d, n, offset, length).bytes|
    ensures base + total <= buf.Length && buf[..] == Overlaid(old(buf[..]), base, ReadSpec(d, n, offset, length).bytes)
  {
    if n >= |d.inodes| {
      return -1, 0;
    }
    if offset >= d.inodes[n].size {
      return 0, 0;
    }
    if d.inodes[n].blocks[offset / PAGE_SIZE] >= d.numBlocks {
      StopsAtBadBlock(d, n, offset, length, offset / PAGE_SIZE);
      return -1, 0;
    }
    ContentLaid(d, n);
    ret, total := CopyBlocks(d, n, offset, buf, base, length, Content(d, n));
    CopiedIsOverlaid(buf[..], old(buf[..]), Content(d, n), base, offset, total);
    if ret == -1 {
      StopsAtBadBlock(d, n, offset, length, (offset + total) / PAGE_SIZE);
    } else {
      ReachesEnd(d, n, offset, length);
    }
  }

  // ---- Names ----

  /** Index of the first of the 63 entries from `i` on that carries the name, or 63. */
  function FindFrom(d: Disk, name: string, i: nat): (r: nat)
    requires ValidDisk(d) && i <= MAX_DENTRIES
    ensures i <= r <= MAX_DENTRIES
    ensures r < MAX_DENTRIES ==> d.dentries[r].name == name
    ensures forall k :: i <= k < r ==> d.dentries[k].name != name
    decreases MAX_DENTRIES - i
  {
    if i == MAX_DENTRIES || d.dentries[i].name == name then i else FindFrom(d, name, i + 1)
  }

  function Lookup(d: Disk, name: string): Option<Dentry>
    requires ValidDisk(d)
  {
    var i := FindFrom(d, name, 0);
    if i < MAX_DENTRIES then Some(d.dentries[i]) else None
  }

  /** Entry `k` is the first of the 63 that carries the name. */
  predicate FirstNamed(d: Disk, name: string, k: nat)
    requires ValidDisk(d)
  {
    k < 63 && d.dentries[k].name == name && forall j :: 0 <= j < k ==> d.dentries[j].name != name
  }

  /** A name stands for the first entry that carries it, and for nothing exactly when no entry does. */
  lemma LookupIsFirst(d: Disk, name: string)
    requires ValidDisk(d)
    ensures Lookup(d, name).Some? <==> exists k: nat :: FirstNamed(d, name, k)
    ensures forall k: nat :: FirstNamed(d, name, k) ==> Lookup(d, name) == Some(d.dentries[k])
    ensures Lookup(d, name) == None <==> forall k :: 0 <= k < 63 ==> d.dentries[k].name != name
  {
    var i := FindFrom(d, name, 0);
    forall k: nat | FirstNamed(d, name, k) ensures k == i {}
    if i < MAX_DENTRIES {
      assert FirstNamed(d, name, i);
    }
  }

  /** The name stands for file `n`. */
  predicate NamesFile(d: Disk, name: string, n: nat)
    requires ValidDisk(d)
  {
    Lookup(d, name).Some? && Lookup(d, name).value.inode == n && n < |d.inodes|
  }

  /** It does exactly when the first entry with that name has that inode number, in range. */
  lemma NamesFileIff(d: Disk, name: string, n: nat)
    requires ValidDisk(d)
    ensures NamesFile(d, name, n) <==> exists k: nat :: FirstNamed(d, name, k) && d.dentries[k].inode == n < |d.inodes|
  {
    LookupIsFirst(d, name);
  }

  /** read_dentry_by_name: the first matching entry, none exactly when no entry matches. */
  method ReadDentryByName(d: Disk, name: string) returns (r: Option<Dentry>)
    requires ValidDisk(d)
    ensures r == Lookup(d, name)
    ensures r.Some? ==> exists k: nat :: FirstNamed(d, name, k) && r.value == d.dentries[k]
    ensures r == None <==> forall k :: 0 <= k < MAX_DENTRIES ==> d.dentries[k].name != name
  {
    for i := 0 to MAX_DENTRIES
      invariant FindFrom(d, name, 0) == FindFrom(d, name, i)
      invariant forall j :: 0 <= j < i ==> d.dentries[j].name != name
    {
      if |d.dentries[i].name| == |name| && d.dentries[i].name == name {
        assert FirstNamed(d, name, i);
        return Some(d.dentries[i]);
      }
    }
    return None;
  }

  /** fs_read: a read by name. */
  function FsRead(d: Disk, name: string, offset: nat, length: nat): ReadOutcome
    requires ValidDisk(d)
  {
    match Lookup(d, name)
    case None => ReadOutcome(-1, [])
    case Some(dentry) => ReadSpec(d, dentry.inode, offset, length)
  }
}
