/** The line-offset iterator of `src/util.rs`: text split into `[start, end)`
    line spans, with `\n` and `\r\n` terminators excluded. Offsets count
    characters, so the model agrees with the byte-slicing original on ASCII text. */
module Lines {
  import opened Wrappers

  /** A line of `contents`: the span `[start, end)`, terminator excluded. */
  datatype Line = Line(contents: string, start: nat, end: nat)

  /** `Line::as_str`: the text of the line. Slicing panics outside the contents. */
  function AsStr(l: Line): (r: string)
    requires l.start <= l.end <= |l.contents|
    ensures |r| == l.end - l.start
    ensures forall i :: 0 <= i < |r| ==> r[i] == l.contents[l.start + i]
  {
    l.contents[l.start..l.end]
  }

  /** `Line::contains`: the offset lies inside the span. */
  predicate Contains(l: Line, offset: nat) {
    l.start <= offset < l.end
  }

  /** The state of `LineIter`: `pos` characters taken from the underlying
      character iterator, and the `offset` field. */
  datatype LineIter = LineIter(contents: string, pos: nat, offset: nat)

  /** `LineIter::new` / `line_offsets`. */
  function NewIter(contents: string): LineIter {
    LineIter(contents, 0, 0)
  }

  /** The inner loop of `next`: advance until a `\n` or the end, remembering
      whether the last character taken was `\r`. */
  function Scan(c: string, pos: nat, offset: nat, start: nat, end: nat, cr: bool): (r: (Option<Line>, LineIter))
    requires pos <= |c| && start < end
    ensures r.0.Some? && r.1.contents == c && pos <= r.1.pos <= |c|
    decreases |c| - pos
  {
    var offset := offset + 1;
    if pos == |c| then (Some(Line(c, start, end)), LineIter(c, pos, offset))
    else if c[pos] == '\n' then (Some(Line(c, start, if cr then end - 1 else end)), LineIter(c, pos + 1, offset))
    else Scan(c, pos + 1, offset, start, end + 1, c[pos] == '\r')
  }

  /** `LineIter::next`: the next line and the advanced iterator, or `None` once
      the characters are exhausted. */
  function Next(it: LineIter): (r: (Option<Line>, LineIter))
    requires it.pos <= |it.contents|
    ensures r.1.contents == it.contents && r.1.pos <= |it.contents|
    ensures r.0.None? <==> it.pos == |it.contents|
    ensures r.0.None? ==> r.1 == it
    ensures r.0.Some? ==> r.1.pos > it.pos
  {
    var c := it.contents;
    var start := it.offset;
    if it.pos == |c| then (None, it)
    else if c[it.pos] == '\n' then
      (Some(Line(c, start, start)), LineIter(c, it.pos + 1, it.offset + 1))
    else
      Scan(c, it.pos + 1, it.offset + 1, start, start + 1, c[it.pos] == '\r')
  }

  /** Every line the iterator still yields, in order. */
  function LinesFrom(it: LineIter): seq<Line>
    requires it.pos <= |it.contents|
    decreases |it.contents| - it.pos
  {
    var (l, it') := Next(it);
    if l.None? then [] else [l.value] + LinesFrom(it')
  }

  /** All lines of `contents`, as iterating `line_offsets(contents)` yields them. */
  function LineOffsets(contents: string): seq<Line> {
    LinesFrom(NewIter(contents))
  }

  // ===================================================================
  // Reference description of a line split
  // ===================================================================

  /** A line span lies inside the text and holds no `\n`. */
  predicate InBounds(c: string, l: Line) {
    l.contents == c && l.start <= l.end <= |c| && '\n' !in c[l.start..l.end]
  }

  /** The line is followed by `\n` (and does not end in `\r`) or by `\r\n`. */
  predicate Terminated(c: string, l: Line)
    requires InBounds(c, l)
  {
    l.end < |c| &&
    ((c[l.end] == '\n' && (l.end == l.start || c[l.end - 1] != '\r')) ||
     (c[l.end] == '\r' && l.end + 1 < |c| && c[l.end + 1] == '\n'))
  }

  /** A line either runs to the end of the text or is terminated. */
  predicate WellFormed(c: string, l: Line) {
    InBounds(c, l) && (l.end == |c| || Terminated(c, l))
  }

  /** The offset just past the line's terminator. */
  function After(c: string, l: Line): (a: nat)
    requires WellFormed(c, l)
    ensures l.end <= a <= |c|
  {
    if l.end == |c| then |c| else if c[l.end] == '\n' then l.end + 1 else l.end + 2
  }

  /** `lines` cuts `c[p..]` into consecutive lines: each starts where the
      previous one's terminator ended, and the last reaches the end of the text. */
  predicate PartitionFrom(c: string, p: nat, lines: seq<Line>)
    decreases |lines|
  {
    if |lines| == 0 then p == |c|
    else
      && p < |c|
      && WellFormed(c, lines[0])
      && lines[0].start == p
      && PartitionFrom(c, After(c, lines[0]), lines[1..])
  }

  // ===================================================================
  // The iterator meets the reference description
  // ===================================================================

  /** The inner loop yields a well-formed line starting at `start` and leaves
      the iterator just past its terminator (or exhausted at the end). */
  lemma {:induction false} ScanSpec(c: string, pos: nat, start: nat, cr: bool)
    requires start < pos <= |c|
    requires '\n' !in c[start..pos]
    requires cr == (c[pos - 1] == '\r')
    ensures var r := Scan(c, pos, pos, start, pos, cr);
      && WellFormed(c, r.0.value) && r.0.value.start == start
      && (if r.0.value.end == |c| then r.1.pos == |c|
          else r.1.pos == r.1.offset == After(c, r.0.value))
    decreases |c| - pos
  {
    if pos < |c| && c[pos] != '\n' {
      assert c[start..pos + 1] == c[start..pos] + [c[pos]];
      ScanSpec(c, pos + 1, start, c[pos] == '\r');
    } else if pos < |c| && cr {
      assert c[start..pos - 1] == c[start..pos][..pos - 1 - start];
    }
  }

  lemma NextSpec(c: string, p: nat)
    requires p < |c|
    ensures var r := Next(LineIter(c, p, p));
      && WellFormed(c, r.0.value) && r.0.value.start == p
      && (if r.0.value.end == |c| then r.1.pos == |c|
          else r.1.pos == r.1.offset == After(c, r.0.value))
  {
    if c[p] != '\n' {
      assert c[p..p + 1] == [c[p]];
      ScanSpec(c, p + 1, p, c[p] == '\r');
    }
  }

  lemma {:induction false} LinesFromPartition(c: string, p: nat)
    requires p <= |c|
    ensures PartitionFrom(c, p, LinesFrom(LineIter(c, p, p)))
    decreases |c| - p
  {
    if p < |c| {
      NextSpec(c, p);
      var (l, it') := Next(LineIter(c, p, p));
      var lines := LinesFrom(LineIter(c, p, p));
      assert lines == [l.value] + LinesFrom(it');
      assert lines[1..] == LinesFrom(it');
      if l.value.end == |c| {
        assert LinesFrom(it') == [];
      } else {
        LinesFromPartition(c, After(c, l.value));
      }
    }
  }

  /** `line_offsets` cuts every text into consecutive lines as `PartitionFrom`
      describes. */
  lemma LineOffsetsPartition(c: string)
    ensures PartitionFrom(c, 0, LineOffsets(c))
  {
    LinesFromPartition(c, 0);
  }

  // ===================================================================
  // Consequences
  // ===================================================================

  /** Empty contents yield no lines. */
  lemma LineOffsetsEmpty()
    ensures LineOffsets("") == []
  {
  }

  lemma {:induction false} PartitionFacts(c: string, p: nat, lines: seq<Line>)
    requires PartitionFrom(c, p, lines)
    ensures forall i :: 0 <= i < |lines| ==> WellFormed(c, lines[i]) && p <= lines[i].start < |c|
    ensures forall i :: 0 <= i < |lines| - 1 ==>
      WellFormed(c, lines[i]) && Terminated(c, lines[i]) && lines[i + 1].start == After(c, lines[i])
    ensures |lines| > 0 ==> lines[0].start == p && After(c, lines[|lines| - 1]) == |c|
    decreases |lines|
  {
    if |lines| > 0 {
      PartitionFacts(c, After(c, lines[0]), lines[1..]);
      assert forall i :: 1 <= i < |lines| ==> lines[i] == lines[1..][i - 1];
      if |lines| > 1 {
        assert lines[1].start == After(c, lines[0]);
        assert lines[0].end < |c|;
      }
    }
  }

  /** Every line lies within the contents, holds no `\n`, and a line ends at
      the text's end or right before a `\n` or `\r\n`. */
  lemma LineBounds(c: string, i: nat)
    requires i < |LineOffsets(c)|
    ensures var l := LineOffsets(c)[i];
      && l.contents == c && l.start <= l.end <= |c| && l.start < |c|
      && '\n' !in AsStr(l)
      && (l.end == |c| || Terminated(c, l))
  {
    LineOffsetsPartition(c);
    PartitionFacts(c, 0, LineOffsets(c));
  }

  /** A `\r` right before a `\n` is never part of a line. */
  lemma CrBeforeLfExcluded(c: string, i: nat)
    requires i < |LineOffsets(c)|
    ensures var l := LineOffsets(c)[i];
      && l.end <= |c|
      && forall k :: l.start <= k < l.end ==> !(c[k] == '\r' && k + 1 < |c| && c[k + 1] == '\n')
  {
    LineOffsetsPartition(c);
    PartitionFacts(c, 0, LineOffsets(c));
    var l := LineOffsets(c)[i];
    forall k | l.start <= k < l.end && c[k] == '\r' && k + 1 < |c|
      ensures c[k + 1] != '\n'
    {
      if k + 1 < l.end {
        assert c[k + 1] == c[l.start..l.end][k + 1 - l.start];
      }
    }
  }

  /** The first line starts at 0, and each later line starts just past the
      `\n` ending the previous one; the final terminator (if any) ends the text,
      so a trailing newline adds no empty line. */
  lemma LineStarts(c: string)
    ensures var ls := LineOffsets(c);
      && (forall i :: 0 <= i < |ls| ==> WellFormed(c, ls[i]))
      && (|ls| > 0 ==> ls[0].start == 0)
      && (forall i :: 0 < i < |ls| ==>
            0 < ls[i].start && c[ls[i].start - 1] == '\n' && ls[i].start == After(c, ls[i - 1]))
      && (|ls| > 0 ==> After(c, ls[|ls| - 1]) == |c|)
      && (|ls| == 0 <==> |c| == 0)
  {
    LineOffsetsPartition(c);
    PartitionStarts(c, LineOffsets(c));
  }

  /** `LineStarts` for any partition of the whole text. */
  lemma PartitionStarts(c: string, ls: seq<Line>)
    requires PartitionFrom(c, 0, ls)
    ensures forall i :: 0 <= i < |ls| ==> WellFormed(c, ls[i])
    ensures |ls| > 0 ==> ls[0].start == 0 && After(c, ls[|ls| - 1]) == |c|
    ensures forall i :: 0 < i < |ls| ==>
      0 < ls[i].start <= |c| && c[ls[i].start - 1] == '\n' && ls[i].start == After(c, ls[i - 1])
    ensures |ls| == 0 <==> |c| == 0
  {
    PartitionFacts(c, 0, ls);
    forall i | 0 < i < |ls|
      ensures 0 < ls[i].start && c[ls[i].start - 1] == '\n'
    {
      TerminatorEndsInNewline(c, ls[i - 1]);
    }
  }

  /** A terminated line's terminator ends with `\n`. */
  lemma TerminatorEndsInNewline(c: string, l: Line)
    requires WellFormed(c, l) && Terminated(c, l)
    ensures 0 < After(c, l) <= |c| && c[After(c, l) - 1] == '\n'
  {
  }

  /** A line starting at a `\n` is empty. */
  lemma NewlineGivesEmptyLine(c: string, i: nat)
    requires i < |LineOffsets(c)|
    ensures var l := LineOffsets(c)[i];
      l.start < |c| && (c[l.start] == '\n' ==> l.end == l.start)
  {
    LineOffsetsPartition(c);
    PartitionFacts(c, 0, LineOffsets(c));
  }

  /** The character at `k` belongs to a line terminator. */
  predicate TerminatorAt(c: string, k: nat)
    requires k < |c|
  {
    c[k] == '\n' || (c[k] == '\r' && k + 1 < |c| && c[k + 1] == '\n')
  }

  /** A character inside a line is no terminator. */
  lemma InsideLine(c: string, l: Line, k: nat)
    requires WellFormed(c, l) && l.start <= k < l.end
    ensures k < |c| && !TerminatorAt(c, k)
  {
    assert c[k] == c[l.start..l.end][k - l.start];
    if k + 1 < l.end {
      assert c[k + 1] == c[l.start..l.end][k + 1 - l.start];
    }
  }

  /** The characters between a line's end and the next line's start form
      its terminator. */
  lemma BetweenLines(c: string, l: Line, k: nat)
    requires WellFormed(c, l) && l.end <= k < After(c, l)
    ensures k < |c| && TerminatorAt(c, k)
  {
  }

  /** No line of a partition of `c[a..]` contains an offset before `a`. */
  lemma BeforePartition(c: string, a: nat, lines: seq<Line>, k: nat)
    requires PartitionFrom(c, a, lines) && k < a
    ensures forall i :: 0 <= i < |lines| ==> !Contains(lines[i], k)
  {
    PartitionFacts(c, a, lines);
  }

  lemma {:induction false} CoveredFrom(c: string, p: nat, lines: seq<Line>, k: nat)
    requires PartitionFrom(c, p, lines)
    requires p <= k < |c|
    ensures (exists i :: 0 <= i < |lines| && Contains(lines[i], k)) <==> !TerminatorAt(c, k)
    decreases |lines|
  {
    var l := lines[0];
    var a := After(c, l);
    var rest := lines[1..];
    assert forall i :: 1 <= i < |lines| ==> lines[i] == rest[i - 1];
    if k < l.end {
      InsideLine(c, l, k);
      assert Contains(lines[0], k);
    } else if k < a {
      BetweenLines(c, l, k);
      BeforePartition(c, a, rest, k);
      assert forall i :: 0 <= i < |lines| ==> !Contains(lines[i], k);
    } else {
      CoveredFrom(c, a, rest, k);
      assert !Contains(lines[0], k);
    }
  }

  /** Exactly the characters that are not part of a terminator lie in some
      line: a `\r` not followed by `\n` stays in its line, and every offset of
      ordinary text has an enclosing line. */
  lemma EnclosingLineExists(c: string, k: nat)
    requires k < |c|
    ensures (exists i :: 0 <= i < |LineOffsets(c)| && Contains(LineOffsets(c)[i], k)) <==> !TerminatorAt(c, k)
  {
    LineOffsetsPartition(c);
    CoveredFrom(c, 0, LineOffsets(c), k);
  }

  /** An empty line contains no offset. */
  lemma EmptyLineContainsNothing(l: Line, o: nat)
    requires l.start == l.end
    ensures !Contains(l, o)
  {
  }
}
