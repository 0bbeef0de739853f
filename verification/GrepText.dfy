/** What grep should print, stated on the whole file, and its in-place helpers on the buffer. */
module GrepText {
  import opened Basics

  const NEWLINE: byte := 10
  const COLON: byte := 58
  const BUFSIZE := 1024

  // ---- Lines ----

  function LineLength(c: seq<byte>): (n: nat)
    ensures n <= |c|
    ensures n < |c| ==> c[n] == NEWLINE
    ensures forall k :: 0 <= k < n ==> c[k] != NEWLINE
  {
    if c == [] || c[0] == NEWLINE then 0 else 1 + LineLength(c[1..])
  }

  /** The text between newlines; what follows the last newline counts as a line too. */
  function Lines(c: seq<byte>): (lines: seq<seq<byte>>)
    ensures |lines| > 0
    decreases |c|
  {
    var n := LineLength(c);
    if n == |c| then [c] else [c[..n]] + Lines(c[n + 1..])
  }

  function Unlines(lines: seq<seq<byte>>): seq<byte>
    requires |lines| > 0
  {
    if |lines| == 1 then lines[0] else lines[0] + [NEWLINE] + Unlines(lines[1..])
  }

  /** Splitting into lines loses nothing. */
  lemma {:induction false} LinesRoundTrip(c: seq<byte>)
    ensures Unlines(Lines(c)) == c
    ensures forall k :: 0 <= k < |Lines(c)| ==> NEWLINE !in Lines(c)[k]
    decreases |c|
  {
    var n := LineLength(c);
    if n < |c| {
      LinesRoundTrip(c[n + 1..]);
      assert Lines(c)[1..] == Lines(c[n + 1..]);
      assert c == c[..n] + [NEWLINE] + c[n + 1..];
    }
  }

  predicate MatchesAt(line: seq<byte>, pattern: seq<byte>, i: nat) {
    i + |pattern| <= |line| && line[i..i + |pattern|] == pattern
  }

  predicate Contains(line: seq<byte>, pattern: seq<byte>) {
    exists i :: 0 <= i <= |line| && MatchesAt(line, pattern, i)
  }

  /** What is printed for one line. */
  function Emit(name: seq<byte>, pattern: seq<byte>, line: seq<byte>): seq<byte> {
    if Contains(line, pattern) then name + [COLON] + line + [NEWLINE] else []
  }

  /** What is printed for a file: the matching lines, each once, in order. */
  function Report(name: seq<byte>, pattern: seq<byte>, lines: seq<seq<byte>>): seq<byte> {
    if lines == [] then [] else Emit(name, pattern, lines[0]) + Report(name, pattern, lines[1..])
  }

  /** The lines that contain the pattern, in their order. */
  function Matching(pattern: seq<byte>, lines: seq<seq<byte>>): seq<seq<byte>> {
    if lines == [] then []
    else (if Contains(lines[0], pattern) then [lines[0]] else []) + Matching(pattern, lines[1..])
  }

  /** Each line behind the file's name and a colon, and with a newline. */
  function Headed(name: seq<byte>, lines: seq<seq<byte>>): seq<byte> {
    if lines == [] then [] else name + [58] + lines[0] + [10] + Headed(name, lines[1..])
  }

  /** The report is the matching lines, each headed by the name. */
  lemma {:induction false} ReportIsMatching(name: seq<byte>, pattern: seq<byte>, lines: seq<seq<byte>>)
    ensures Report(name, pattern, lines) == Headed(name, Matching(pattern, lines))
    decreases |lines|
  {
    if lines != [] {
      var rest := Matching(pattern, lines[1..]);
      ReportIsMatching(name, pattern, lines[1..]);
      if Contains(lines[0], pattern) {
        assert ([lines[0]] + rest)[1..] == rest;
      } else {
        assert [] + rest == rest;
      }
    }
  }

  /** What is still to be printed when the first `from` bytes are dealt with. */
  function Rest(name: seq<byte>, pattern: seq<byte>, c: seq<byte>, from: nat): seq<byte>
    requires from <= |c|
  {
    Report(name, pattern, Lines(c[from..]))
  }

  predicate NoNewline(c: seq<byte>, from: nat, to: nat)
    requires from <= to <= |c|
  {
    forall k :: from <= k < to ==> c[k] != NEWLINE
  }

  lemma LineLengthIs(c: seq<byte>, n: nat)
    requires n <= |c| && NoNewline(c, 0, n) && (n < |c| ==> c[n] == NEWLINE)
    ensures LineLength(c) == n
  {
  }

  /** A complete line is printed, or not, and the rest follows. */
  lemma RestAfterLine(name: seq<byte>, pattern: seq<byte>, c: seq<byte>, from: nat, to: nat)
    requires from <= to < |c| && NoNewline(c, from, to) && c[to] == NEWLINE
    ensures Rest(name, pattern, c, from) == Emit(name, pattern, c[from..to]) + Rest(name, pattern, c, to + 1)
  {
    var d := c[from..];
    LineLengthIs(d, to - from);
    assert d[..to - from] == c[from..to] && d[to - from + 1..] == c[to + 1..];
    assert Lines(d)[1..] == Lines(c[to + 1..]);
  }

  /** The last line, without a newline, is all that is left. */
  lemma RestOfLastLine(name: seq<byte>, pattern: seq<byte>, c: seq<byte>, from: nat)
    requires from <= |c| && NoNewline(c, from, |c|)
    ensures Rest(name, pattern, c, from) == Emit(name, pattern, c[from..])
  {
    LineLengthIs(c[from..], |c| - from);
    assert Lines(c[from..]) == [c[from..]];
    assert Report(name, pattern, [c[from..]]) == Emit(name, pattern, c[from..]) + Report(name, pattern, []);
  }

  lemma NothingLeft(name: seq<byte>, pattern: seq<byte>, c: seq<byte>)
    requires pattern != []
    ensures Rest(name, pattern, c, |c|) == []
  {
    RestOfLastLine(name, pattern, c, |c|);
  }

  lemma Regroup(a: seq<byte>, b: seq<byte>, c: seq<byte>)
    ensures (a + b) + c == a + (b + c)
  {
  }

  /** Every line is shorter than the buffer. */
  predicate ShortLines(c: seq<byte>) {
    forall k :: 0 <= k < |Lines(c)| ==> |Lines(c)[k]| < BUFSIZE
  }

  /** A buffer's worth of text without a newline lies within one over-long line. */
  lemma {:induction false} LongRunIsLongLine(c: seq<byte>, i: nat)
    requires i + BUFSIZE <= |c| && NoNewline(c, i, i + BUFSIZE)
    ensures !ShortLines(c)
    decreases |c|
  {
    var n := LineLength(c);
    if i <= n {
      assert |Lines(c)[0]| >= BUFSIZE;
    } else {
      var d := c[n + 1..];
      LongRunIsLongLine(d, i - n - 1);
      var k :| 0 <= k < |Lines(d)| && |Lines(d)[k]| >= BUFSIZE;
      assert Lines(c)[k + 1] == Lines(d)[k];
    }
  }

  predicate NulFree(c: seq<byte>) { forall k :: 0 <= k < |c| ==> c[k] != 0 }

  // ---- Where the windows end ----

  /** The line that position `p` is in starts at `start`. */
  predicate StartsLine(c: seq<byte>, start: nat, p: nat) {
    start <= p <= |c| && NoNewline(c, start, p) && (start == 0 || c[start - 1] == NEWLINE)
  }

  function LineStart(c: seq<byte>, p: nat): (start: nat)
    requires p <= |c|
    ensures StartsLine(c, start, p)
  {
    if p == 0 || c[p - 1] == NEWLINE then p else LineStart(c, p - 1)
  }

  lemma {:induction false} LineStartIs(c: seq<byte>, start: nat, p: nat)
    requires StartsLine(c, start, p)
    ensures LineStart(c, p) == start
    decreases p
  {
    if start < p {
      LineStartIs(c, start, p - 1);
    }
  }

  /** The search fills its window from the start of the line it is in. The end of the last window that
      ends inside the text, from the one that ends at `p` on. */
  function LastEnd(c: seq<byte>, p: nat): (r: nat)
    requires p <= |c|
    ensures p <= r <= |c|
    decreases |c| - p
  {
    var end := LineStart(c, p) + BUFSIZE;
    if p < end <= |c| then LastEnd(c, end) else p
  }

  /** The last window ends exactly at the end. */
  predicate EndsEvenly(c: seq<byte>) { LastEnd(c, 0) == |c| }

  /** The text before the line in which the last window ends. */
  function BeforeLastEnd(c: seq<byte>): seq<byte> { c[..LineStart(c, LastEnd(c, 0))] }

  /** A window that ends at `p` is followed by one that is filled from `start` on. */
  predicate Window(c: seq<byte>, start: nat, p: nat) { p < start + BUFSIZE && StartsLine(c, start, p) }

  /** `ends` says of each position where the windows from there on end at last. */
  type Course = nat -> nat

  ghost predicate Follows(ends: Course, c: seq<byte>) {
    && ends(|c|) == |c|
    && forall start: nat, p: nat :: Window(c, start, p) ==>
         ends(p) == if start + BUFSIZE <= |c| then ends(start + BUFSIZE) else p
  }

  function CourseOf(c: seq<byte>): Course { (p: nat) => if p <= |c| then LastEnd(c, p) else p }

  lemma CourseFollows(c: seq<byte>)
    ensures Follows(CourseOf(c), c)
  {
    var ends := CourseOf(c);
    forall start: nat, p: nat | Window(c, start, p)
      ensures ends(p) == if start + BUFSIZE <= |c| then ends(start + BUFSIZE) else p
    {
      LineStartIs(c, start, p);
    }
  }

  // ---- Helpers on the buffer ----

  /** ece391_strncmp of the buffer at `at` with the pattern, as grep uses it: the line is
      terminated at `end`, and the pattern holds no terminator. */
  method MatchHere(data: array<byte>, at: nat, end: nat, pattern: seq<byte>) returns (same: bool)
    requires at <= end < data.Length && data[end] == 0
    requires NulFree(pattern) && pattern != []
    ensures same <==> at + |pattern| <= end && forall k :: 0 <= k < |pattern| ==> data[at + k] == pattern[k]
  {
    var i, n := 0, |pattern|;
    while data[at + i] == pattern[i]
      invariant 0 <= i < |pattern| && at + i <= end && n == |pattern| - i
      invariant forall k :: 0 <= k < i ==> data[at + k] == pattern[k]
      decreases |pattern| - i
    {
      n := n - 1;
      if data[at + i] == 0 || n == 0 {
        return true;
      }
      i := i + 1;
    }
    return false;
  }

  lemma MatchIsBytes(data: seq<byte>, start: nat, end: nat, check: nat, pattern: seq<byte>)
    requires start <= check <= end <= |data|
    ensures MatchesAt(data[start..end], pattern, check - start) <==>
              check + |pattern| <= end && forall k :: 0 <= k < |pattern| ==> data[check + k] == pattern[k]
  {
    var line, at := data[start..end], check - start;
    if at + |pattern| <= |line| {
      var piece := line[at..at + |pattern|];
      forall k | 0 <= k < |pattern| ensures piece[k] == data[check + k] {
        assert line[at + k] == data[start + (at + k)];
      }
    }
  }

  /** The search of one terminated line of the buffer. */
  method SearchLine(data: array<byte>, start: nat, end: nat, pattern: seq<byte>) returns (found: bool)
    requires start <= end < data.Length && data[end] == 0
    requires NulFree(pattern) && pattern != []
    ensures found <==> Contains(data[start..end], pattern)
  {
    ghost var line := data[start..end];
    for check := start to end
      invariant forall i :: 0 <= i < check - start ==> !MatchesAt(line, pattern, i)
    {
      MatchIsBytes(data[..], start, end, check, pattern);
      if pattern[0] == data[check] {
        var same := MatchHere(data, check, end, pattern);
        if same {
          assert MatchesAt(line, pattern, check - start);
          return true;
        }
      }
      assert !MatchesAt(line, pattern, check - start);
    }
    return false;
  }

  /** ece391_strcpy of a string in the buffer onto the start of the buffer, the two overlapping. */
  method CopyDown(data: array<byte>, from: nat, end: nat)
    requires 0 < from <= end < data.Length && data[end] == 0
    requires forall k :: from <= k < end ==> data[k] != 0
    modifies data
    ensures forall k :: 0 <= k <= end - from ==> data[k] == old(data[from + k])
    ensures forall k :: end - from < k < data.Length ==> data[k] == old(data[k])
  {
    var i := 0;
    data[i] := data[from + i];
    while data[i] != 0
      invariant 0 <= i <= end - from
      invariant forall k :: 0 <= k <= i ==> data[k] == old(data[from + k])
      invariant forall k :: i < k < data.Length ==> data[k] == old(data[k])
      decreases end - i
    {
      i := i + 1;
      data[i] := data[from + i];
    }
  }

  /** What the search may rely on: text without terminators in lines that fit the buffer, and a
      pattern that lies within a line. */
  predicate Searchable(c: seq<byte>, pattern: seq<byte>) {
    NulFree(c) && ShortLines(c) && NulFree(pattern) && pattern != [] && NEWLINE !in pattern
  }

  /** The buffer holds `last` bytes of the text, from `base` on. */
  predicate Holds(data: seq<byte>, last: nat, c: seq<byte>, base: nat) {
    && |data| == BUFSIZE + 1 && last <= BUFSIZE && base + last <= |c|
    && data[BUFSIZE] != NEWLINE
    && forall k :: 0 <= k < last ==> data[k] == c[base + k]
  }

  predicate LongRun(c: seq<byte>, i: nat) { i + BUFSIZE <= |c| && NoNewline(c, i, i + BUFSIZE) }

  /** What a pass over the buffer relies on: no window's worth of text without a newline. */
  ghost predicate Scannable(c: seq<byte>, pattern: seq<byte>) {
    NulFree(c) && NulFree(pattern) && pattern != [] && forall i: nat :: !LongRun(c, i)
  }

  lemma SearchableIsScannable(c: seq<byte>, pattern: seq<byte>)
    requires Searchable(c, pattern)
    ensures Scannable(c, pattern)
  {
    forall i: nat ensures !LongRun(c, i) {
      if LongRun(c, i) {
        LongRunIsLongLine(c, i);
        assert false;
      }
    }
  }

  /** Bytes `from..to` of the buffer are those of the text, `base` further on. */
  predicate Copies(data: seq<byte>, from: nat, to: nat, c: seq<byte>, base: nat)
    requires to <= |data| && base + to <= |c|
  {
    forall k :: from <= k < to ==> data[k] == c[base + k]
  }

  /** The end of the line that starts at `start`: its newline, or the end of the data. */
  method LineEnd(data: array<byte>, start: nat, last: nat, ghost c: seq<byte>, ghost base: nat) returns (end: nat)
    requires start <= last < data.Length && base + last <= |c| && Copies(data[..], start, last, c, base)
    ensures start <= end <= last && (end < last ==> data[end] == NEWLINE == c[base + end])
    ensures NoNewline(c, base + start, base + end)
  {
    end := start;
    while end < last && data[end] != NEWLINE
      invariant start <= end <= last
      invariant NoNewline(c, base + start, base + end)
    {
      assert data[..][end] == c[base + end];
      end := end + 1;
    }
    if end < last {
      assert data[..][end] == c[base + end];
    }
  }

  /** Terminates the line in the buffer, searches it, and gives what is printed for it. */
  method PrintLine(data: array<byte>, start: nat, end: nat, last: nat, name: seq<byte>, pattern: seq<byte>,
                   ghost c: seq<byte>, ghost base: nat)
    returns (printed: seq<byte>)
    requires start <= end <= last < data.Length && NulFree(pattern) && pattern != []
    requires base + last <= |c| && Copies(data[..], start, last, c, base)
    modifies data
    ensures data[end] == 0 && forall k :: 0 <= k < data.Length && k != end ==> data[k] == old(data[k])
    ensures end < last ==> Copies(data[..], end + 1, last, c, base)
    ensures printed == Emit(name, pattern, c[base + start..base + end])
  {
    ghost var line := c[base + start..base + end];
    assert data[start..end] == line by {
      assert forall k :: start <= k < end ==> data[..][k] == c[base + k];
    }
    data[end] := 0;
    assert data[start..end] == line;
    var found := SearchLine(data, start, end, pattern);
    if found {
      printed := name + [COLON] + data[start..end] + [NEWLINE];
    } else {
      printed := [];
    }
  }

  // ---- The account of what is printed ----

  /** What stands from `from` to `to` is a line, or the part of one behind `from`. */
  predicate IsLine(c: seq<byte>, from: nat, to: nat) {
    from <= to <= |c| && NoNewline(c, from, to) && (to < |c| ==> c[to] == NEWLINE)
  }

  function NextLine(c: seq<byte>, to: nat): nat { if to < |c| then to + 1 else to }

  /** What is printed for the line at two positions, and what is owed in all from a position on. */
  datatype Ledger = Ledger(emit: (nat, nat) -> seq<byte>, owed: nat -> seq<byte>)

  ghost predicate Prints(l: Ledger, name: seq<byte>, pattern: seq<byte>, c: seq<byte>) {
    forall from: nat, to: nat :: IsLine(c, from, to) ==> l.emit(from, to) == Emit(name, pattern, c[from..to])
  }

  /** What is owed is what is printed for the line there, and then what is owed behind that line. */
  ghost predicate Balances(l: Ledger, c: seq<byte>) {
    forall from: nat, to: nat :: IsLine(c, from, to) ==> l.owed(from) == l.emit(from, to) + l.owed(NextLine(c, to))
  }

  function LedgerOf(name: seq<byte>, pattern: seq<byte>, c: seq<byte>): Ledger {
    Ledger((from: nat, to: nat) => if from <= to <= |c| then Emit(name, pattern, c[from..to]) else [],
           (from: nat) => if from <= |c| then Rest(name, pattern, c, from) else [])
  }

  lemma RestSplits(name: seq<byte>, pattern: seq<byte>, c: seq<byte>, from: nat, to: nat)
    requires pattern != [] && IsLine(c, from, to)
    ensures NextLine(c, to) <= |c|
    ensures Rest(name, pattern, c, from) == Emit(name, pattern, c[from..to]) + Rest(name, pattern, c, NextLine(c, to))
  {
    if to < |c| {
      RestAfterLine(name, pattern, c, from, to);
    } else {
      RestOfLastLine(name, pattern, c, from);
      NothingLeft(name, pattern, c);
      assert c[from..to] == c[from..];
    }
  }

  lemma LedgerBalances(name: seq<byte>, pattern: seq<byte>, c: seq<byte>)
    requires pattern != []
    ensures var l := LedgerOf(name, pattern, c);
            && Prints(l, name, pattern, c) && Balances(l, c)
            && l.owed(|c|) == [] && l.owed(0) == Report(name, pattern, Lines(c))
  {
    var l := LedgerOf(name, pattern, c);
    NothingLeft(name, pattern, c);
    assert c[0..] == c;
    forall from: nat, to: nat | IsLine(c, from, to)
      ensures l.owed(from) == l.emit(from, to) + l.owed(NextLine(c, to))
    {
      RestSplits(name, pattern, c, from, to);
    }
  }

  /** What is printed since `base` and what is owed from `from` on make up what `base` calls for. */
  predicate Accounted(l: Ledger, base: nat, from: nat, printed: seq<byte>) {
    printed + l.owed(from) == l.owed(base)
  }

  lemma LineAccounted(l: Ledger, c: seq<byte>, base: nat, from: nat, to: nat, printed: seq<byte>)
    requires Balances(l, c) && IsLine(c, from, to) && Accounted(l, base, from, printed)
    ensures Accounted(l, base, NextLine(c, to), printed + l.emit(from, to))
  {
    Regroup(printed, l.emit(from, to), l.owed(NextLine(c, to)));
  }

  function NewlineFrom(c: seq<byte>, p: nat, from: nat): (r: nat)
    requires p < from <= |c| && c[from - 1] == NEWLINE
    ensures p <= r < from && c[r] == NEWLINE && NoNewline(c, p, r)
    decreases from - p
  {
    if c[p] == NEWLINE then p else NewlineFrom(c, p + 1, from)
  }

  /** A line of the text before `from` is a line of the text. */
  lemma LineBefore(c: seq<byte>, from: nat, p: nat, to: nat)
    requires p <= to < from <= |c| && c[to] == NEWLINE && NoNewline(c, p, to)
    ensures IsLine(c, p, to) && IsLine(c[..from], p, to) && c[..from][p..to] == c[p..to]
    ensures NextLine(c, to) == NextLine(c[..from], to) == to + 1
  {
  }

  /** What is owed for the text before the start of a line, and then for the rest. */
  lemma {:induction false} OwedBefore(l: Ledger, cut: Ledger, name: seq<byte>, pattern: seq<byte>, c: seq<byte>,
                                      from: nat, p: nat)
    requires p <= from <= |c| && (from == 0 || c[from - 1] == NEWLINE)
    requires Prints(l, name, pattern, c) && Balances(l, c)
    requires Prints(cut, name, pattern, c[..from]) && Balances(cut, c[..from]) && cut.owed(from) == []
    ensures l.owed(p) == cut.owed(p) + l.owed(from)
    decreases from - p
  {
    if p < from {
      var to := NewlineFrom(c, p, from);
      LineBefore(c, from, p, to);
      OwedBefore(l, cut, name, pattern, c, from, to + 1);
      Regroup(l.emit(p, to), cut.owed(to + 1), l.owed(from));
    }
  }

  lemma SameBehind(a: seq<byte>, b: seq<byte>, rest: seq<byte>)
    requires a + rest == b + rest
    ensures a == b
  {
    assert |a| == |b|;
    assert a == (a + rest)[..|a|] && b == (b + rest)[..|b|];
  }

  /** What is printed when the account stands at the start of a line: the report of the text before. */
  lemma PrintedBefore(name: seq<byte>, pattern: seq<byte>, c: seq<byte>, from: nat, p: nat, printed: seq<byte>)
    requires pattern != [] && StartsLine(c, from, p) && Accounted(LedgerOf(name, pattern, c), 0, from, printed)
    ensures from == LineStart(c, p) && printed == Report(name, pattern, Lines(c[..from]))
  {
    var l, cut := LedgerOf(name, pattern, c), LedgerOf(name, pattern, c[..from]);
    LineStartIs(c, from, p);
    LedgerBalances(name, pattern, c);
    LedgerBalances(name, pattern, c[..from]);
    OwedBefore(l, cut, name, pattern, c, from, 0);
    SameBehind(printed, cut.owed(0), l.owed(from));
  }

  /** The unfinished line moved to the front of the buffer. */
  method MoveToFront(data: array<byte>, start: nat, last: nat, ghost c: seq<byte>, ghost base: nat)
    requires 0 < start <= last <= BUFSIZE && data.Length == BUFSIZE + 1 && base + last <= |c| && NulFree(c)
    requires data[BUFSIZE] != NEWLINE && Copies(data[..], start, last, c, base)
    modifies data
    ensures Holds(data[..], last - start, c, base + start)
  {
    assert forall k :: start <= k < last ==> data[..][k] == c[base + k];
    data[last] := 0;
    CopyDown(data, start, last);
  }

  /** What a pass over a window of `last` bytes from `base` on leaves: it has dealt with the text up to
      `now` and keeps the `left` bytes from there on. */
  predicate Scanned(l: Ledger, c: seq<byte>, base: nat, last: nat, count: nat, left: nat, now: nat,
                    printed: seq<byte>)
  {
    && base + last <= |c| && left < BUFSIZE && now + left == base + last
    && Accounted(l, base, now, printed)
    && (count == 0 ==> now == |c|)
    && (count != 0 && last == BUFSIZE ==> StartsLine(c, now, base + last))
  }

  /** The line that starts at `start` of the window ends at `end`: at its newline, or with the window. */
  predicate LineFound(c: seq<byte>, base: nat, start: nat, end: nat, last: nat) {
    && start <= end <= last <= BUFSIZE && base + last <= |c| && NoNewline(c, base + start, base + end)
    && (end < last ==> c[base + end] == NEWLINE) && (start > 0 ==> c[base + start - 1] == NEWLINE)
  }

  /** A line that is dealt with: the account goes on behind it, and at the end of the window nothing is
      left. */
  lemma LineDone(l: Ledger, c: seq<byte>, base: nat, start: nat, end: nat, last: nat, count: nat, printed: seq<byte>)
    requires Balances(l, c) && LineFound(c, base, start, end, last) && IsLine(c, base + start, base + end)
    requires end == last ==> base + last == |c| && (count == 0 || last < BUFSIZE)
    requires count == 0 ==> base + last == |c|
    requires Accounted(l, base, base + start, printed)
    ensures var now, all := NextLine(c, base + end), printed + l.emit(base + start, base + end);
            && Accounted(l, base, now, all) && now == (if end < last then base + end + 1 else base + last)
            && (end + 1 >= last ==> Scanned(l, c, base, last, count, 0, now, all))
  {
    LineAccounted(l, c, base, base + start, base + end, printed);
  }

  /** The window from `start` on still holds the text. */
  predicate Remains(data: seq<byte>, start: nat, last: nat, c: seq<byte>, base: nat) {
    && |data| == BUFSIZE + 1 && start <= last <= BUFSIZE && base + last <= |c|
    && data[BUFSIZE] != NEWLINE && Copies(data, start, last, c, base)
  }

  lemma FullWindowHasNewline(c: seq<byte>, pattern: seq<byte>, base: nat)
    requires Scannable(c, pattern) && base + BUFSIZE <= |c|
    ensures !NoNewline(c, base, base + BUFSIZE)
  {
    assert !LongRun(c, base);
  }

  /** What the scan of one line of the window leaves: an unfinished line at the front of the buffer, or
      what is printed for the line, and the window behind it. */
  predicate LineResult(data: seq<byte>, l: Ledger, c: seq<byte>, base: nat, start: nat, last: nat, count: nat,
                       kept: bool, end: nat, out: seq<byte>)
  {
    && LineFound(c, base, start, end, last) && |data| == BUFSIZE + 1
    && (kept ==> end == last && count != 0 && start > 0 && Holds(data, last - start, c, base + start))
    && (!kept ==>
          && out == l.emit(base + start, base + end) && data[BUFSIZE] != NEWLINE
          && (end == last ==> base + last == |c| && (count == 0 || last < BUFSIZE))
          && (end < last ==> Remains(data, end + 1, last, c, base)))
  }

  /** The scan has come to the line at `start`. */
  predicate AtLine(data: seq<byte>, l: Ledger, c: seq<byte>, base: nat, start: nat, last: nat, printed: seq<byte>) {
    && Remains(data, start, last, c, base) && Accounted(l, base, base + start, printed)
    && (start > 0 ==> c[base + start - 1] == NEWLINE)
  }

  predicate ScanDone(data: seq<byte>, l: Ledger, c: seq<byte>, base: nat, last: nat, count: nat, left: nat, now: nat,
                     printed: seq<byte>)
  {
    Scanned(l, c, base, last, count, left, now, printed) && Holds(data, left, c, now)
  }

  /** A round of the pass: `done` when the window is used up, otherwise on to the line at `next`. */
  predicate ScanStep(data: seq<byte>, l: Ledger, c: seq<byte>, base: nat, start: nat, last: nat, count: nat, done: bool,
                     next: nat, left: nat, now: nat, printed: seq<byte>)
  {
    if done then ScanDone(data, l, c, base, last, count, left, now, printed)
    else start < next <= last && AtLine(data, l, c, base, next, last, printed)
  }

  lemma AfterLine(data: seq<byte>, l: Ledger, c: seq<byte>, base: nat, start: nat, last: nat, count: nat,
                  kept: bool, end: nat, out: seq<byte>, output: seq<byte>)
    requires Balances(l, c) && LineResult(data, l, c, base, start, last, count, kept, end, out)
    requires Accounted(l, base, base + start, output) && (count == 0 || last < BUFSIZE ==> base + last == |c|)
    ensures var left, now := if kept then last - start else 0, if kept then base + start else base + last;
            var printed := if kept then output else output + out;
            ScanStep(data, l, c, base, start, last, count, kept || end + 1 >= last, end + 1, left, now, printed)
  {
    if !kept {
      LineDone(l, c, base, start, end, last, count, output);
    }
  }

  /** One line of the window, which ends at `end`: an unfinished one is moved to the front, any other is
      terminated and searched. `out` is what is printed for it. */
  method ScanLine(data: array<byte>, start: nat, last: nat, count: nat, name: seq<byte>, pattern: seq<byte>,
                  ghost l: Ledger, ghost c: seq<byte>, ghost base: nat)
    returns (kept: bool, end: nat, out: seq<byte>)
    requires Scannable(c, pattern) && Prints(l, name, pattern, c) && Remains(data[..], start, last, c, base)
    requires count == 0 || last < BUFSIZE ==> base + last == |c|
    requires start > 0 ==> c[base + start - 1] == NEWLINE
    modifies data
    ensures LineResult(data[..], l, c, base, start, last, count, kept, end, out)
  {
    if last == BUFSIZE {
      FullWindowHasNewline(c, pattern, base);
    }
    end := LineEnd(data, start, last, c, base);
    kept := data[end] != NEWLINE && count != 0 && start != 0;
    if kept {
      out := [];
      MoveToFront(data, start, last, c, base);
    } else {
      assert IsLine(c, base + start, base + end);
      out := PrintLine(data, start, end, last, name, pattern, c, base);
    }
  }

  /** One round of the pass over the buffer. */
  method ScanNext(data: array<byte>, start: nat, last: nat, count: nat, name: seq<byte>, pattern: seq<byte>,
                  output: seq<byte>, ghost l: Ledger, ghost c: seq<byte>, ghost base: nat)
    returns (done: bool, next: nat, left: nat, printed: seq<byte>, ghost now: nat)
    requires Scannable(c, pattern) && Prints(l, name, pattern, c) && Balances(l, c)
    requires AtLine(data[..], l, c, base, start, last, output)
    requires count == 0 || last < BUFSIZE ==> base + last == |c|
    modifies data
    ensures ScanStep(data[..], l, c, base, start, last, count, done, next, left, now, printed)
  {
    var kept, end, out := ScanLine(data, start, last, count, name, pattern, l, c, base);
    AfterLine(data[..], l, c, base, start, last, count, kept, end, out, output);
    done, next := kept || end + 1 >= last, end + 1;
    left, now := if kept then last - start else 0, if kept then base + start else base + last;
    printed := if kept then output else output + out;
  }

  /** One pass over the buffer: searches its complete lines, then either moves the unfinished line
      to the front, to be completed by the next read, or empties the buffer. `count` is what the
      last read returned. */
  method ScanBuffer(data: array<byte>, last: nat, count: nat, name: seq<byte>, pattern: seq<byte>,
                    ghost l: Ledger, ghost c: seq<byte>, ghost base: nat)
    returns (left: nat, printed: seq<byte>, ghost now: nat)
    requires Scannable(c, pattern) && Prints(l, name, pattern, c) && Balances(l, c) && Holds(data[..], last, c, base)
    requires count == 0 || last < BUFSIZE ==> base + last == |c|
    modifies data
    ensures ScanDone(data[..], l, c, base, last, count, left, now, printed)
  {
    var start: nat, done := 0, false;
    left, printed, now := 0, [], base;
    while !done
      invariant !done ==> AtLine(data[..], l, c, base, start, last, printed)
      invariant done ==> ScanDone(data[..], l, c, base, last, count, left, now, printed)
      decreases if done then 0 else 1, last - start
    {
      done, start, left, printed, now := ScanNext(data, start, last, count, name, pattern, printed, l, c, base);
    }
  }
}
