/** The user program grep's search of one file, reading it through a 1024-byte window. */
module Grep {
  import opened Basics
  import opened FileSystem
  import opened Processes
  import opened Chains
  import opened Kernel
  import opened Interludes
  import opened Cat
  import opened GrepText

  lemma AccountsCompose(l: Ledger, base: nat, now: nat, output: seq<byte>, printed: seq<byte>)
    requires Accounted(l, 0, base, output) && Accounted(l, base, now, printed)
    ensures Accounted(l, 0, now, output + printed)
  {
    Regroup(output, printed, l.owed(now));
  }

  /** The window after a read has been appended to it. */
  lemma WindowGrows(was: seq<byte>, data: seq<byte>, last: nat, bytes: seq<byte>, c: seq<byte>, base: nat)
    requires Holds(was, last, c, base) && last + |bytes| <= BUFSIZE && base + last + |bytes| <= |c|
    requires |data| == |was| && bytes == c[base + last..base + last + |bytes|]
    requires forall i :: 0 <= i < |data| ==> data[i] == if last <= i < last + |bytes| then bytes[i - last] else was[i]
    ensures Holds(data, last + |bytes|, c, base)
  {
  }

  /** A read that succeeds has consulted only good blocks. */
  lemma ReadExtendsBlocks(d: Disk, n: nat, position: nat, length: nat, end: nat)
    requires ValidDisk(d) && n < |d.inodes| && position <= d.inodes[n].size && BlocksBelow(d, n, position)
    requires !MeetsBadBlock(d, n, position, length) && end == Min(position + length, d.inodes[n].size)
    ensures BlocksBelow(d, n, end)
  {
    forall i | position <= i < end ensures BlockOk(d, n, i / PAGE_SIZE) {
      assert i <= LastConsulted(d, n, position, length);
    }
  }

  /** The window ends at `position` of what can be read of the file. */
  predicate UpToHere(d: Disk, n: nat, c: seq<byte>, position: nat)
    requires ValidDisk(d) && n < |d.inodes|
  {
    c == Legible(d, n) && position <= |c|
  }

  /** The windows so far are those of the course from the start, unless the last of them ran past the end
      of the file and so has seen every block. */
  predicate OnTrack(d: Disk, n: nat, ends: Course, c: seq<byte>, p: nat)
    requires ValidDisk(d) && n < |d.inodes|
  {
    ends(p) == ends(0) || (p == |c| && AllBlocksOk(d, n))
  }

  /** The window that ends at `p` starts at the start of the line `p` is in, unless the file is used up. */
  predicate Aligned(d: Disk, n: nat, c: seq<byte>, p: nat, last: nat)
    requires n < |d.inodes|
  {
    p < d.inodes[n].size ==> last <= p && StartsLine(c, p - last, p)
  }

  /** A search succeeds exactly when every block that holds the file can be read, and so can the block
      behind a full last block if some window runs past the end of the text. */
  predicate Succeeds(d: Disk, n: nat, evenly: bool)
    requires ValidDisk(d) && n < |d.inodes|
  {
    DataBlocksOk(d, n) && (evenly || AllBlocksOk(d, n))
  }

  lemma BlockBelow(d: Disk, n: nat, m: nat, b: nat)
    requires ValidDisk(d) && n < |d.inodes| && m <= d.inodes[n].size && BlocksBelow(d, n, m) && b * PAGE_SIZE < m
    ensures BlockOk(d, n, b)
  {
    assert BlockOk(d, n, b * PAGE_SIZE / PAGE_SIZE);
  }

  lemma AllBelow(d: Disk, n: nat)
    requires ValidDisk(d) && n < |d.inodes| && DataBlocksOk(d, n) && BlockOk(d, n, d.inodes[n].size / PAGE_SIZE)
    ensures AllBlocksOk(d, n)
  {
    forall b | 0 <= b <= d.inodes[n].size / PAGE_SIZE ensures BlockOk(d, n, b) {
      if b * PAGE_SIZE < d.inodes[n].size {
        BlockBelow(d, n, d.inodes[n].size, b);
      }
    }
  }

  lemma AllLegible(d: Disk, n: nat)
    requires ValidDisk(d) && n < |d.inodes| && AllBlocksOk(d, n)
    ensures Legible(d, n) == Content(d, n)
  {
    LegibleIs(d, n, 0);
  }

  /** A read that runs past the end of the text and succeeds has seen the block there. */
  lemma PastTheEnd(d: Disk, n: nat, p: nat, length: nat)
    requires ValidDisk(d) && n < |d.inodes| && p < d.inodes[n].size < p + length && BlocksBelow(d, n, p)
    requires !MeetsBadBlock(d, n, p, length)
    ensures AllBlocksOk(d, n)
  {
    ReadExtendsBlocks(d, n, p, length, d.inodes[n].size);
    assert LastConsulted(d, n, p, length) == d.inodes[n].size;
    AllBelow(d, n);
  }

  /** A read that succeeds keeps the search on track. */
  lemma ReadOnTrack(d: Disk, n: nat, ends: Course, c: seq<byte>, p: nat, last: nat, now: nat)
    requires ValidDisk(d) && n < |d.inodes| && UpToHere(d, n, c, p) && OnTrack(d, n, ends, c, p)
    requires Aligned(d, n, c, p, last) && Follows(ends, c) && last < BUFSIZE && p < d.inodes[n].size
    requires !MeetsBadBlock(d, n, p, BUFSIZE - last) && now == Min(p - last + BUFSIZE, d.inodes[n].size)
    ensures now <= |c| && OnTrack(d, n, ends, c, now)
  {
    LegibleIs(d, n, p);
    ReadExtendsBlocks(d, n, p, BUFSIZE - last, now);
    LegibleIs(d, n, now);
    if AllBlocksOk(d, n) {
      AllLegible(d, n);
    }
    if p - last + BUFSIZE > d.inodes[n].size {
      PastTheEnd(d, n, p, BUFSIZE - last);
    } else {
      assert Window(c, p - last, p);
    }
  }

  /** The block at which a read fails lies behind what can be read, and so does the window's end. */
  lemma FailsBehind(d: Disk, n: nat, p: nat, last: nat)
    requires ValidDisk(d) && n < |d.inodes| && p < d.inodes[n].size && last < BUFSIZE && last <= p
    requires MeetsBadBlock(d, n, p, BUFSIZE - last)
    ensures |Legible(d, n)| < p - last + BUFSIZE && !AllBlocksOk(d, n)
  {
    var b :| p / PAGE_SIZE <= b <= LastConsulted(d, n, p, BUFSIZE - last) / PAGE_SIZE && !BlockOk(d, n, b);
    LegibleIs(d, n, 0);
    if b * PAGE_SIZE < |Legible(d, n)| {
      BlockBelow(d, n, |Legible(d, n)|, b);
      assert false;
    }
  }

  /** A read that fails rules success out, and ends the search in the line in which the last window
      ends. */
  lemma FailureIsFinal(d: Disk, n: nat, ends: Course, c: seq<byte>, p: nat, last: nat)
    requires ValidDisk(d) && n < |d.inodes| && UpToHere(d, n, c, p) && OnTrack(d, n, ends, c, p)
    requires Aligned(d, n, c, p, last) && Follows(ends, c) && last < BUFSIZE
    requires MeetsBadBlock(d, n, p, BUFSIZE - last)
    ensures !Succeeds(d, n, ends(0) == |c|)
    ensures last <= p && StartsLine(c, p - last, p) && ends(0) == p
  {
    FailsBehind(d, n, p, last);
    assert Window(c, p - last, p);
    LegibleIs(d, n, 0);
  }

  /** Where the search stands when its window ends at `position`. */
  predicate Underway(d: Disk, n: nat, ends: Course, c: seq<byte>, position: nat, last: nat)
    requires ValidDisk(d)
  {
    n < |d.inodes| ==>
      && UpToHere(d, n, c, position) && OnTrack(d, n, ends, c, position)
      && Aligned(d, n, c, position, last)
  }

  /** What a successful read at the end of the window says. */
  predicate ReadResult(d: Disk, n: nat, ends: Course, c: seq<byte>, position: nat, last: nat, count: nat)
    requires ValidDisk(d) && n < |d.inodes|
  {
    && last + count <= BUFSIZE && UpToHere(d, n, c, position + count) && OnTrack(d, n, ends, c, position + count)
    && (count == 0 || last + count < BUFSIZE ==> position + count == |c| == d.inodes[n].size)
    && (count == 0 ==> Succeeds(d, n, ends(0) == |c|))
  }

  lemma ReadAtEnd(d: Disk, n: nat, ends: Course, c: seq<byte>, position: nat, last: nat, count: nat)
    requires ValidDisk(d) && n < |d.inodes| && Underway(d, n, ends, c, position, last)
    requires last < BUFSIZE && Follows(ends, c) && !MeetsBadBlock(d, n, position, BUFSIZE - last)
    requires count == Min(BUFSIZE - last, d.inodes[n].size - position)
    ensures ReadResult(d, n, ends, c, position, last, count)
  {
    LegibleIs(d, n, position);
    if position < d.inodes[n].size {
      ReadOnTrack(d, n, ends, c, position, last, position + count);
    }
  }

  lemma SameSlice(all: seq<byte>, some: seq<byte>, position: nat, length: nat, count: nat)
    requires some <= all && position + count <= |some| && count == Min(length, |all| - position)
    ensures Slice(all, position, length) == Slice(some, position, length) && |Slice(some, position, length)| == count
  {
    assert all[position..position + count] == some[position..position + count];
  }

  /** The bytes placed in the window behind what it holds. */
  method Append(data: array<byte>, last: nat, piece: seq<byte>)
    requires last + |piece| <= data.Length
    modifies data
    ensures data[..] == Overlaid(old(data[..]), last, piece)
  {
    ghost var was := data[..];
    for i := 0 to |piece|
      invariant forall j :: 0 <= j < data.Length ==> data[j] == if last <= j < last + i then piece[j - last] else was[j]
    {
      data[last + i] := piece[i];
    }
  }

  // ---- The search ----

  /** A search of inode `n`: what can be read of its text, what is printed in front of a line, and the
      laws it obeys. */
  datatype Search =
    Search(d: Disk, n: nat, c: seq<byte>, heading: seq<byte>, pattern: seq<byte>, l: Ledger, ends: Course)

  ghost predicate Lawful(q: Search) {
    && ValidDisk(q.d)
    && (q.n < |q.d.inodes| ==>
          && Scannable(q.c, q.pattern) && Prints(q.l, q.heading, q.pattern, q.c) && Balances(q.l, q.c)
          && Follows(q.ends, q.c))
  }

  ghost predicate WindowAt(q: Search, base: nat, last: nat) {
    Lawful(q) && last < BUFSIZE && Underway(q.d, q.n, q.ends, q.c, base + last, last)
  }

  /** The search has dealt with the text up to `base` and holds the `last` bytes from there on. */
  ghost predicate Searching(q: Search, base: nat, last: nat) { WindowAt(q, base, last) }

  predicate Succeeding(q: Search) {
    ValidDisk(q.d) && q.n < |q.d.inodes| && Succeeds(q.d, q.n, q.ends(0) == |q.c|)
  }

  /** The window's end lies in the file. */
  lemma InsideFile(q: Search, base: nat, last: nat)
    requires Searching(q, base, last)
    ensures q.n < |q.d.inodes| ==> base + last <= |q.c| <= |Content(q.d, q.n)|
  {
    if q.n < |q.d.inodes| {
      LegibleIs(q.d, q.n, 0);
    }
  }

  /** The search has stopped for good in the line in which its last window ends. */
  predicate Stopped(q: Search, base: nat) {
    !Succeeding(q) && (q.n < |q.d.inodes| ==> StartsLine(q.c, base, q.ends(0)))
  }

  lemma FailedRead(q: Search, base: nat, last: nat)
    requires Searching(q, base, last) && ReadFails(q.d, q.n, base + last, BUFSIZE - last)
    ensures Stopped(q, base)
  {
    if q.n < |q.d.inodes| {
      FailureIsFinal(q.d, q.n, q.ends, q.c, base + last, last);
    }
  }

  /** What a read that succeeds delivers is the next piece of the search's text. */
  lemma PieceOfSearch(q: Search, base: nat, last: nat, count: nat)
    requires Searching(q, base, last) && !ReadFails(q.d, q.n, base + last, BUFSIZE - last) && q.n < |q.d.inodes|
    requires count == Min(BUFSIZE - last, q.d.inodes[q.n].size - base - last)
    ensures q.c <= Content(q.d, q.n) && base + last + count <= |q.c|
  {
    LegibleIs(q.d, q.n, base + last);
    ReadAtEnd(q.d, q.n, q.ends, q.c, base + last, last, count);
  }

  lemma PieceFits(q: Search, base: nat, last: nat, piece: seq<byte>)
    requires Searching(q, base, last) && !ReadFails(q.d, q.n, base + last, BUFSIZE - last) && q.n < |q.d.inodes|
    requires piece == Slice(Content(q.d, q.n), base + last, BUFSIZE - last)
    ensures last < BUFSIZE && piece == Slice(q.c, base + last, BUFSIZE - last)
    ensures |piece| == Min(BUFSIZE - last, q.d.inodes[q.n].size - base - last)
  {
    InsideFile(q, base, last);
    var count := Min(BUFSIZE - last, |Content(q.d, q.n)| - base - last);
    PieceOfSearch(q, base, last, count);
    SameSlice(Content(q.d, q.n), q.c, base + last, BUFSIZE - last, count);
  }

  /** A read that succeeds and a pass over the window keep the search going. */
  lemma RoundKeepsSearching(q: Search, base: nat, last: nat, count: nat, left: nat, now: nat, printed: seq<byte>)
    requires Searching(q, base, last) && !ReadFails(q.d, q.n, base + last, BUFSIZE - last) && q.n < |q.d.inodes|
    requires count == Min(BUFSIZE - last, q.d.inodes[q.n].size - base - last)
    requires Scanned(q.l, q.c, base, last + count, count, left, now, printed)
    ensures Searching(q, now, left)
    ensures count == 0 ==> now == |q.c| && Succeeding(q)
  {
    ReadAtEnd(q.d, q.n, q.ends, q.c, base + last, last, count);
  }

  /** What a read has returned, appended to the window, and a scan of the window. */
  method ScanRead(data: array<byte>, last: nat, piece: seq<byte>, pattern: seq<byte>, heading: seq<byte>,
                  ghost l: Ledger, ghost c: seq<byte>, ghost base: nat)
    returns (left: nat, printed: seq<byte>, ghost now: nat)
    requires Scannable(c, pattern) && Prints(l, heading, pattern, c) && Balances(l, c)
    requires last < BUFSIZE && data.Length == BUFSIZE + 1 && Holds(data[..], last, c, base)
    requires piece == Slice(c, base + last, BUFSIZE - last)
    modifies data
    ensures Scanned(l, c, base, last + |piece|, |piece|, left, now, printed) && Holds(data[..], left, c, now)
  {
    ghost var was := data[..];
    Append(data, last, piece);
    WindowGrows(was, data[..], last, piece, c, base);
    left, printed, now := ScanBuffer(data, last + |piece|, |piece|, heading, pattern, l, c, base);
  }

  /** The same as a step of the search. */
  method TakeRead(data: array<byte>, last: nat, piece: seq<byte>, pattern: seq<byte>, heading: seq<byte>,
                  ghost q: Search, ghost base: nat)
    returns (left: nat, printed: seq<byte>, ghost now: nat)
    requires Searching(q, base, last) && !ReadFails(q.d, q.n, base + last, BUFSIZE - last) && q.n < |q.d.inodes|
    requires pattern == q.pattern && heading == q.heading
    requires data.Length == BUFSIZE + 1 && Holds(data[..], last, q.c, base)
    requires piece == Slice(Content(q.d, q.n), base + last, BUFSIZE - last)
    modifies data
    ensures Searching(q, now, left) && Holds(data[..], left, q.c, now) && Accounted(q.l, base, now, printed)
    ensures now + left == base + last + |piece| && (piece == [] ==> now == |q.c| && Succeeding(q))
  {
    PieceFits(q, base, last, piece);
    left, printed, now := ScanRead(data, last, piece, pattern, heading, q.l, q.c, base);
    RoundKeepsSearching(q, base, last, |piece|, left, now, printed);
  }

  /** The buffer holds the window of the search. */
  predicate Windowed(data: seq<byte>, q: Search, base: nat, last: nat) { Holds(data, last, q.c, base) }

  /** What a round leaves: a search that has stopped for good, or one that goes on or is done. */
  ghost predicate RoundOver(q: Search, base: nat, last: nat, count: int, left: nat, now: nat, printed: seq<byte>,
                            data: seq<byte>)
  {
    if count == -1 then Stopped(q, base)
    else
      && count >= 0 && now + left == base + last + count
      && Searching(q, now, left) && Windowed(data, q, now, left) && Accounted(q.l, base, now, printed)
      && (count == 0 ==> now == |q.c| && Succeeding(q))
  }

  ghost predicate Round(q: Search, base: nat, last: nat, count: int, left: nat, now: nat, printed: seq<byte>,
                        data: seq<byte>)
  {
    RoundOver(q, base, last, count, left, now, printed, data)
  }

  /** What the search makes of what a read returns. */
  method Digest(count: int, piece: seq<byte>, data: array<byte>, last: nat, pattern: seq<byte>, heading: seq<byte>,
                ghost q: Search, ghost base: nat)
    returns (left: nat, printed: seq<byte>, ghost now: nat)
    requires Searching(q, base, last) && pattern == q.pattern && heading == q.heading
    requires data.Length == BUFSIZE + 1 && Windowed(data[..], q, base, last)
    requires count == -1 <==> ReadFails(q.d, q.n, base + last, BUFSIZE - last)
    requires count != -1 ==> count == |piece| && piece == Slice(Content(q.d, q.n), base + last, BUFSIZE - last)
    modifies data
    ensures Round(q, base, last, count, left, now, printed, data[..])
  {
    if count == -1 {
      FailedRead(q, base, last);
      return 0, [], 0;
    }
    left, printed, now := TakeRead(data, last, piece, pattern, heading, q, base);
  }

  /** One round of the loop: a read appended to the window, and a scan of the window. A read that fails
      rules success out. */
  method ReadAndScan(k: Kernel, fd: nat, at: Address, pattern: seq<byte>, data: array<byte>, last: nat,
                     heading: seq<byte>, others: Others, i: nat, ghost seat: Seat, ghost name: string,
                     ghost q: Search, ghost base: nat)
    returns (count: int, left: nat, printed: seq<byte>, ghost now: nat, ghost next: Seat)
    requires ValidDisk(k.disk) && k.disk == q.d && k.Abs() == seat.s && Schedule(k.disk, others, seat.s.current)
    requires Searching(q, base, last) && pattern == q.pattern && heading == q.heading
    requires Poised(seat, fd, name, base + last) && RegularFile(k.disk, name, q.n) && InRegion(at, BUFSIZE)
    requires data.Length == BUFSIZE + 1 && Windowed(data[..], q, base, last)
    modifies k, data
    ensures k.Abs() == next.s && next.s.current == seat.s.current
    ensures count == -1 <==> ReadFails(k.disk, q.n, base + last, BUFSIZE - last)
    ensures Round(q, base, last, count, left, now, printed, data[..])
    ensures count != -1 ==> Poised(next, fd, name, base + last + count)
  {
    InsideFile(q, base, last);
    var piece;
    count, piece, next := NextPiece(k, fd, at + last, BUFSIZE - last, others, i, seat, name, q.n, base + last);
    left, printed, now := Digest(count, piece, data, last, pattern, heading, q, base);
  }

  /** The read-and-scan loop, with any steps of other processes in between. */
  method SearchOpenFile(k: Kernel, fd: nat, at: Address, pattern: seq<byte>, data: array<byte>, others: Others,
                        name: string, ghost seat: Seat, ghost q: Search)
    returns (ok: bool, output: seq<byte>, ghost stop: nat, ghost next: Seat)
    requires ValidDisk(k.disk) && k.disk == q.d && k.Abs() == seat.s && Schedule(k.disk, others, seat.s.current)
    requires Searching(q, 0, 0) && pattern == q.pattern && Bytes(name) == q.heading
    requires Poised(seat, fd, name, 0) && RegularFile(k.disk, name, q.n) && InRegion(at, BUFSIZE)
    requires data.Length == BUFSIZE + 1 && Windowed(data[..], q, 0, 0)
    modifies k, data
    ensures k.Abs() == next.s && (ok <==> Succeeding(q))
    ensures ok ==> stop == |q.c| && Poised(next, fd, name, |q.c|)
    ensures !ok ==> Stopped(q, stop)
    ensures Accounted(q.l, 0, stop, output)
  {
    ghost var base: nat := 0;
    var last: nat, heading, round := 0, Bytes(name), 0;
    output, next := [], seat;
    while true
      invariant k.Abs() == next.s && next.s.current == seat.s.current && Poised(next, fd, name, base + last)
      invariant Searching(q, base, last) && Windowed(data[..], q, base, last) && Accounted(q.l, 0, base, output)
      decreases |q.c| - base - last
    {
      var count, left, printed;
      ghost var now;
      count, left, printed, now, next :=
        ReadAndScan(k, fd, at, pattern, data, last, heading, others, round, next, name, q, base);
      if count == -1 {
        return false, output, base, next;
      }
      AccountsCompose(q.l, base, now, output, printed);
      output := output + printed;
      last, base, round := left, now, round + 1;
      if count == 0 {
        return true, output, base, next;
      }
    }
  }

  /** The search that do_one_file makes. */
  function SearchOf(d: Disk, n: nat, name: string, pattern: seq<byte>): Search
    requires ValidDisk(d)
  {
    var c := if n < |d.inodes| then Legible(d, n) else [];
    Search(d, n, c, Bytes(name), pattern, LedgerOf(Bytes(name), pattern, c), CourseOf(c))
  }

  lemma SearchBegins(d: Disk, n: nat, name: string, pattern: seq<byte>)
    requires ValidDisk(d) && pattern != [] && (n < |d.inodes| ==> Searchable(Legible(d, n), pattern))
    ensures Searching(SearchOf(d, n, name, pattern), 0, 0)
  {
    var q := SearchOf(d, n, name, pattern);
    LedgerBalances(Bytes(name), pattern, q.c);
    CourseFollows(q.c);
    if n < |d.inodes| {
      SearchableIsScannable(q.c, pattern);
    }
  }

  /** The search succeeds exactly when it can, and then the whole file has been searched. */
  lemma SearchSucceeds(d: Disk, n: nat, name: string, pattern: seq<byte>, output: seq<byte>)
    requires ValidDisk(d) && pattern != []
    ensures var q := SearchOf(d, n, name, pattern);
            && (Succeeding(q) <==> n < |d.inodes| && Succeeds(d, n, EndsEvenly(Content(d, n))))
            && (Succeeding(q) && Accounted(q.l, 0, |q.c|, output) ==>
                  output == Report(Bytes(name), pattern, Lines(Content(d, n))))
  {
    var q := SearchOf(d, n, name, pattern);
    LedgerBalances(Bytes(name), pattern, q.c);
    if n < |d.inodes| {
      LegibleIs(d, n, 0);
    }
    assert output + [] == output;
  }

  /** What a search that fails has printed. */
  function PrintedInVain(d: Disk, n: nat, name: string, pattern: seq<byte>): seq<byte>
    requires ValidDisk(d)
  {
    if n >= |d.inodes| then [] else Report(Bytes(name), pattern, Lines(BeforeLastEnd(Legible(d, n))))
  }

  lemma SearchFails(d: Disk, n: nat, name: string, pattern: seq<byte>, base: nat, output: seq<byte>)
    requires ValidDisk(d) && pattern != []
    requires var q := SearchOf(d, n, name, pattern); Stopped(q, base) && Accounted(q.l, 0, base, output)
    ensures output == PrintedInVain(d, n, name, pattern)
  {
    var q := SearchOf(d, n, name, pattern);
    if n < |d.inodes| {
      PrintedBefore(Bytes(name), pattern, q.c, base, q.ends(0), output);
    } else {
      NothingLeft(Bytes(name), pattern, []);
    }
  }

  /** do_one_file prints exactly the lines of the file that contain the pattern, once each and in
      order, whatever other processes do between its calls. It succeeds exactly when the file can be
      opened, every block that holds it can be read, and so can the block behind a full last block
      unless the windows end evenly. If it fails later, it has printed the matching ones of the lines
      before the one in which the last window it could fill ends. `junk` is what the buffer holds
      before the first read, `at` where it lies. */
  method SearchFile(k: Kernel, pattern: seq<byte>, name: string, at: Address, junk: seq<byte>, others: Others,
                    ghost a: Ttys, ghost n: nat)
    returns (ret: int, output: seq<byte>)
    requires k.Valid() && Represents(k.Abs(), a) && Schedule(k.disk, others, k.current)
    requires PlainName(name) && pattern != [] && InRegion(at, BUFSIZE)
    requires Lookup(k.disk, name).Some? ==> RegularFile(k.disk, name, n)
    requires n < |k.disk.inodes| ==> Searchable(Legible(k.disk, n), pattern)
    requires |junk| == BUFSIZE + 1 && junk[BUFSIZE] != NEWLINE
    modifies k
    ensures ret == 0 || ret == -1
    ensures ret == 0 ==> n < |k.disk.inodes| && output == Report(Bytes(name), pattern, Lines(Content(k.disk, n)))
    ensures ret == 0 <==>
              && OpenReturn(k.disk, old(k.Abs()), name) != -1 && n < |k.disk.inodes|
              && Succeeds(k.disk, n, EndsEvenly(Content(k.disk, n)))
    ensures ret == -1 ==>
              output == if OpenReturn(k.disk, old(k.Abs()), name) == -1 then Bytes("file open failed\n")
                        else PrintedInVain(k.disk, n, name, pattern) + Bytes("file read failed\n")
  {
    var fd;
    ghost var seat;
    fd, seat := OpenRegular(k, name, Seat(k.Abs(), a), n);
    if fd == -1 {
      return -1, Bytes("file open failed\n");
    }
    var data := new byte[BUFSIZE + 1](i requires 0 <= i < BUFSIZE + 1 => junk[i]);
    ghost var q := SearchOf(k.disk, n, name, pattern);
    SearchBegins(k.disk, n, name, pattern);
    var ok;
    ghost var stop;
    ok, output, stop, seat := SearchOpenFile(k, fd, at, pattern, data, others, name, seat, q);
    SearchSucceeds(k.disk, n, name, pattern, output);
    if !ok {
      SearchFails(k.disk, n, name, pattern, stop, output);
      return -1, output + Bytes("file read failed\n");
    }
    MeIsRunning(seat.s, seat.a);
    ret := k.CloseFile(fd);
  }

  /** Without a full last block every block a read may consult holds some of the file, so the blocks
      that hold the file decide. */
  lemma LastBlockHoldsData(d: Disk, n: nat)
    requires ValidDisk(d) && n < |d.inodes| && d.inodes[n].size % PAGE_SIZE != 0
    ensures forall evenly :: Succeeds(d, n, evenly) <==> DataBlocksOk(d, n)
  {
    if DataBlocksOk(d, n) {
      forall b | 0 <= b <= d.inodes[n].size / PAGE_SIZE ensures BlockOk(d, n, b) {
        assert BlockOk(d, n, b * PAGE_SIZE / PAGE_SIZE);
      }
    }
  }

  /** A file whose first block is bad can be searched too: nothing is printed, and the search fails. */
  lemma FirstBlockBad(d: Disk, n: nat, name: string, pattern: seq<byte>, evenly: bool)
    requires ValidDisk(d) && n < |d.inodes| && d.inodes[n].size > 0 && !BlockOk(d, n, 0)
    requires NulFree(pattern) && pattern != [] && NEWLINE !in pattern
    ensures Searchable(Legible(d, n), pattern) && !Succeeds(d, n, evenly)
    ensures PrintedInVain(d, n, name, pattern) == []
  {
    LegibleIs(d, n, 1);
    assert !BlocksBelow(d, n, 1) && Legible(d, n) == [];
    assert Lines([]) == [[]] && BeforeLastEnd([]) == [];
    NothingLeft(Bytes(name), pattern, []);
  }
}
