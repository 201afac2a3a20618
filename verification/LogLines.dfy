/** Reading a log file backwards, block by block, into lines with exact byte offsets. */
module LogLines {
  import opened Json

  const NEWLINE: byte := 10

  datatype Line = Line(offset: nat, text: seq<byte>)

  /** `_ScanState`. */
  datatype ScanState = ScanState(bytesScanned: nat, truncated: bool, reachedStart: bool)

  // ---------------------------------------------------------------- the forward meaning

  /** The first newline at or after p, or the end of the file. */
  function NextNewline(f: seq<byte>, p: nat): (e: nat)
    requires p <= |f|
    ensures p <= e <= |f|
    decreases |f| - p
  {
    if p == |f| || f[p] == NEWLINE then p else NextNewline(f, p + 1)
  }

  lemma {:induction false} NextNewlineMeans(f: seq<byte>, p: nat)
    requires p <= |f|
    ensures var e := NextNewline(f, p);
      (e < |f| ==> f[e] == NEWLINE) && forall i | p <= i < e :: f[i] != NEWLINE
    decreases |f| - p
  {
    if p < |f| && f[p] != NEWLINE {
      NextNewlineMeans(f, p + 1);
    }
  }

  /** The lines of the file from a line start o to the end, in file order. */
  function LinesFrom(f: seq<byte>, o: nat): seq<Line>
    requires o <= |f|
    decreases |f| - o, 1
  {
    [Line(o, f[o..NextNewline(f, o)])] + LinesAfter(f, o)
  }

  /** The lines that start after a newline at or behind position p. */
  function LinesAfter(f: seq<byte>, p: nat): seq<Line>
    requires p <= |f|
    decreases |f| - p, 0
  {
    var e := NextNewline(f, p);
    if e < |f| then LinesFrom(f, e + 1) else []
  }

  /** The nonempty ones of some lines, newest first. */
  function Newest(ls: seq<Line>): seq<Line> {
    if ls == [] then []
    else Newest(ls[1..]) + if ls[0].text == [] then [] else [ls[0]]
  }

  /** What a backward scan may see: everything, or what starts inside the scanned suffix. */
  function Scanned(f: seq<byte>, cap: nat): seq<Line> {
    if |f| <= cap then Newest(LinesFrom(f, 0)) else Newest(LinesAfter(f, |f| - cap))
  }

  /** x is the text from its offset to the next newline. */
  predicate RunsToNewline(f: seq<byte>, x: Line) {
    x.offset <= |f| && x.text == f[x.offset..NextNewline(f, x.offset)]
  }

  predicate StartsAfterNewline(f: seq<byte>, x: Line) {
    0 < x.offset <= |f| && f[x.offset - 1] == NEWLINE
  }

  /** `LinesFrom` read declaratively: a line starts at o or right after a newline, and runs to
      the next newline. */
  lemma {:induction false} LinesFromMeans(f: seq<byte>, o: nat, x: Line)
    requires o <= |f|
    ensures x in LinesFrom(f, o) <==>
              RunsToNewline(f, x) && (x.offset == o || (x.offset > o && StartsAfterNewline(f, x)))
    decreases |f| - o, 1
  {
    var e := NextNewline(f, o);
    LinesAfterMeans(f, o, x);
    assert LinesFrom(f, o) == [Line(o, f[o..e])] + LinesAfter(f, o);
    assert x in LinesFrom(f, o) <==> x == Line(o, f[o..e]) || x in LinesAfter(f, o);
  }

  lemma {:induction false} LinesAfterMeans(f: seq<byte>, p: nat, x: Line)
    requires p <= |f|
    ensures x in LinesAfter(f, p) <==>
              RunsToNewline(f, x) && x.offset > p && StartsAfterNewline(f, x)
    decreases |f| - p, 0
  {
    var e := NextNewline(f, p);
    NextNewlineMeans(f, p);
    if p < x.offset <= e {
      assert f[x.offset - 1] != NEWLINE;
    }
    if e < |f| {
      LinesFromMeans(f, e + 1, x);
    }
  }

  lemma {:induction false} NewestMeans(ls: seq<Line>, x: Line)
    ensures x in Newest(ls) <==> x in ls && x.text != []
  {
    if ls != [] {
      NewestMeans(ls[1..], x);
      assert x in ls <==> x == ls[0] || x in ls[1..];
    }
  }

  /** A scan yields exactly the nonempty lines that start after a newline inside the scanned
      suffix, and the first line too once the start of the file is reached. */
  lemma ScannedMeans(f: seq<byte>, cap: nat, x: Line)
    ensures x in Scanned(f, cap) <==>
              && x.text != [] && RunsToNewline(f, x)
              && (if x.offset == 0 then |f| <= cap
                  else StartsAfterNewline(f, x) && x.offset - 1 >= |f| - cap)
  {
    if |f| <= cap {
      NewestMeans(LinesFrom(f, 0), x);
      LinesFromMeans(f, 0, x);
    } else {
      NewestMeans(LinesAfter(f, |f| - cap), x);
      LinesAfterMeans(f, |f| - cap, x);
    }
  }

  // ---------------------------------------------------------------- one block

  /** Python's `split` at newlines. */
  function Split(s: seq<byte>): (r: seq<seq<byte>>)
    ensures |r| >= 1
    decreases |s|
  {
    var e := NextNewline(s, 0);
    if e == |s| then [s] else [s[..e]] + Split(s[e + 1..])
  }

  /** The parts of a split with the offsets they start at. */
  function PartLines(parts: seq<seq<byte>>, start: nat): (r: seq<Line>)
    ensures |r| == |parts|
  {
    if parts == [] then []
    else [Line(start, parts[0])] + PartLines(parts[1..], start + |parts[0]| + 1)
  }

  lemma {:induction false} PartLinesAppend(a: seq<seq<byte>>, part: seq<byte>, start: nat)
    ensures PartLines(a + [part], start) == PartLines(a, start) + [Line(start + Width(a), part)]
  {
    if a == [] {
      assert a + [part] == [part];
    } else {
      assert a + [part] == [a[0]] + (a[1..] + [part]);
      PartLinesCons(a[0], a[1..] + [part], start);
      PartLinesAppend(a[1..], part, start + |a[0]| + 1);
    }
  }

  function Width(parts: seq<seq<byte>>): nat {
    if parts == [] then 0 else |parts[0]| + 1 + Width(parts[1..])
  }

  lemma {:induction false} NextNewlineUnique(f: seq<byte>, p: nat, e: nat)
    requires p <= e <= |f|
    requires forall i | p <= i < e :: f[i] != NEWLINE
    requires e < |f| ==> f[e] == NEWLINE
    ensures NextNewline(f, p) == e
    decreases e - p
  {
    if p < e {
      NextNewlineUnique(f, p + 1, e);
    }
  }

  /** The first newline of a slice that ends at or before the first newline of the file. */
  lemma NextNewlineInSlice(f: seq<byte>, o: nat, b: nat)
    requires o <= b <= |f|
    ensures NextNewline(f[o..b], 0) == if NextNewline(f, o) < b then NextNewline(f, o) - o else b - o
  {
    NextNewlineMeans(f, o);
    var e := NextNewline(f, o);
    NextNewlineUnique(f[o..b], 0, if e < b then e - o else b - o);
  }

  /** Skipping ahead inside a line does not change where it ends. */
  lemma NextNewlineSkip(f: seq<byte>, o: nat, p: nat)
    requires o <= p <= |f| && p <= NextNewline(f, o)
    ensures NextNewline(f, p) == NextNewline(f, o)
  {
    NextNewlineMeans(f, o);
    NextNewlineUnique(f, p, NextNewline(f, o));
  }

  /** The lines from o are those in the text up to the first newline behind p, split as one
      block, followed by the lines behind that newline. */
  lemma {:induction false} SplitBlock(f: seq<byte>, o: nat, p: nat, b: nat)
    requires o <= p <= |f| && b == NextNewline(f, p)
    ensures LinesFrom(f, o) == PartLines(Split(f[o..b]), o) + LinesAfter(f, p)
    decreases p - o
  {
    var e := NextNewline(f, o);
    if e >= p {
      NextNewlineSkip(f, o, p);
      SplitLine(f, o, b);
      PartLinesCons(f[o..b], [], o);
      assert [f[o..b]] + [] == [f[o..b]];
    } else {
      SplitBlock(f, e + 1, p, b);
      FirstPart(f, o, b);
      Associate([Line(o, f[o..e])], PartLines(Split(f[e + 1..b]), e + 1), LinesAfter(f, p));
    }
  }

  /** The first line of a block, and the parts behind it. */
  lemma FirstPart(f: seq<byte>, o: nat, b: nat)
    requires o <= b <= |f| && NextNewline(f, o) < b
    ensures var e := NextNewline(f, o);
      PartLines(Split(f[o..b]), o) == [Line(o, f[o..e])] + PartLines(Split(f[e + 1..b]), e + 1)
  {
    var e := NextNewline(f, o);
    SplitLine(f, o, b);
    PartLinesCons(f[o..e], Split(f[e + 1..b]), o);
  }

  lemma Associate(a: seq<Line>, b: seq<Line>, c: seq<Line>)
    ensures a + (b + c) == (a + b) + c
  {}

  lemma NextNewlineLater(f: seq<byte>, q: nat, p: nat)
    requires q <= p <= |f|
    ensures NextNewline(f, q) <= NextNewline(f, p)
  {
    if NextNewline(f, q) >= p {
      NextNewlineSkip(f, q, p);
    }
  }

  /** Splitting a slice takes off its first line. */
  lemma SplitLine(f: seq<byte>, o: nat, b: nat)
    requires o <= b <= |f|
    ensures var e := NextNewline(f, o);
      Split(f[o..b]) == if e < b then [f[o..e]] + Split(f[e + 1..b]) else [f[o..b]]
  {
    var e, s := NextNewline(f, o), f[o..b];
    NextNewlineInSlice(f, o, b);
    if e < b {
      assert s[e - o + 1..] == f[e + 1..b] && s[..e - o] == f[o..e];
    }
  }

  lemma PartLinesCons(part: seq<byte>, rest: seq<seq<byte>>, start: nat)
    ensures PartLines([part] + rest, start) == [Line(start, part)] + PartLines(rest, start + |part| + 1)
  {
    assert ([part] + rest)[1..] == rest;
  }

  lemma {:induction false} NewestAppend(a: seq<Line>, b: seq<Line>)
    ensures Newest(a + b) == Newest(b) + Newest(a)
  {
    if a == [] {
      assert a + b == b;
    } else {
      assert (a + b)[1..] == a[1..] + b;
      NewestAppend(a[1..], b);
    }
  }

  /** Reading the bytes from q to p in front of a buffer that reaches from p to the next
      newline yields the lines after q that were not yet yielded. */
  lemma BlockYields(f: seq<byte>, q: nat, p: nat)
    requires q <= p <= |f|
    ensures var parts := Split(f[q..NextNewline(f, p)]);
      && parts[0] == f[q..NextNewline(f, q)]
      && Newest(LinesAfter(f, q)) == Newest(LinesAfter(f, p)) + Newest(PartLines(parts, q)[1..])
  {
    SplitBlock(f, q, p, NextNewline(f, p));
    SplitLine(f, q, NextNewline(f, p));
    NextNewlineLater(f, q, p);
    var lines, later := PartLines(Split(f[q..NextNewline(f, p)]), q), LinesAfter(f, p);
    assert LinesAfter(f, q) == lines[1..] + later by {
      assert LinesFrom(f, q)[1..] == LinesAfter(f, q);
      TailOfAppend(lines, later);
    }
    NewestAppend(lines[1..], later);
  }

  lemma TailOfAppend(a: seq<Line>, b: seq<Line>)
    requires a != []
    ensures (a + b)[1..] == a[1..] + b
  {}

  // ---------------------------------------------------------------- the reader

  /** The offsets of the parts of one block. */
  method PartOffsets(parts: seq<seq<byte>>, position: nat) returns (offsets: seq<nat>)
    ensures |offsets| == |parts|
    ensures forall k | 0 <= k < |parts| :: PartLines(parts, position)[k] == Line(offsets[k], parts[k])
  {
    offsets := [];
    var acc := position;
    for k := 0 to |parts|
      invariant |offsets| == k
      invariant acc == position + Width(parts[..k])
      invariant PartLines(parts[..k], position) == seq(k, i requires 0 <= i < k => Line(offsets[i], parts[i]))
    {
      offsets := offsets + [acc];
      PartLinesAppend(parts[..k], parts[k], position);
      WidthAppend(parts[..k], parts[k]);
      assert parts[..k + 1] == parts[..k] + [parts[k]];
      acc := acc + |parts[k]| + 1;
    }
    assert parts[..|parts|] == parts;
  }

  lemma {:induction false} WidthAppend(a: seq<seq<byte>>, part: seq<byte>)
    ensures Width(a + [part]) == Width(a) + |part| + 1
  {
    if a == [] {
      assert a + [part] == [part];
    } else {
      assert (a + [part])[1..] == a[1..] + [part];
      WidthAppend(a[1..], part);
    }
  }

  /** Yield the complete lines of one block, newest first. */
  method YieldBlock(parts: seq<seq<byte>>, position: nat) returns (lines: seq<Line>)
    requires parts != []
    ensures lines == Newest(PartLines(parts, position)[1..])
  {
    var offsets := PartOffsets(parts, position);
    ghost var all := PartLines(parts, position);
    lines := [];
    var index := |parts| - 1;
    while index > 0
      invariant 0 <= index < |parts|
      invariant lines == Newest(all[index + 1..])
    {
      assert all[index..][1..] == all[index + 1..];
      if parts[index] != [] {
        lines := lines + [Line(offsets[index], parts[index])];
      }
      index := index - 1;
    }
  }

  /** `_iter_lines_backwards`, run to its end. */
  method IterLinesBackwards(file: seq<byte>, blockSize: nat, maxScan: nat)
    returns (lines: seq<Line>, state: ScanState)
    requires blockSize > 0
    ensures lines == Scanned(file, maxScan)
    ensures state.bytesScanned == if |file| <= maxScan then |file| else maxScan
    ensures state.reachedStart <==> |file| <= maxScan
    ensures state.truncated <==> |file| > maxScan
  {
    lines := [];
    var position, scanned, buffer := |file|, 0, [];
    while position > 0 && scanned < maxScan
      invariant 0 <= position && position + scanned == |file| && scanned <= maxScan
      invariant buffer == file[position..NextNewline(file, position)]
      invariant lines == Newest(LinesAfter(file, position))
    {
      var readSize := Min(blockSize, Min(position, maxScan - scanned));
      ghost var p := position;
      position := position - readSize;
      buffer := file[position..position + readSize] + buffer;
      assert buffer == file[position..NextNewline(file, p)];
      scanned := scanned + readSize;
      var parts := Split(buffer);
      BlockYields(file, position, p);
      buffer := parts[0];
      var yielded := YieldBlock(parts, position);
      lines := lines + yielded;
    }
    state := ScanState(scanned, false, false);
    if position == 0 {
      state := state.(reachedStart := true);
      if buffer != [] {
        lines := lines + [Line(0, buffer)];
      }
      assert LinesFrom(file, 0) == [Line(0, buffer)] + LinesAfter(file, 0);
    } else {
      state := state.(truncated := true);
    }
  }

  function Min(a: nat, b: nat): nat {
    if a <= b then a else b
  }
}
