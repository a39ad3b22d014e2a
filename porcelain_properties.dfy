/**
  What the parser promises about its records: one record per marker line, in
  order; each record built only from the lines of its own stanza; lines
  before the first marker ignored; and, inside a stanza, which line decides
  each field.
 */
module PorcelainProperties {
  import opened Wrappers
  import opened Text
  import opened Worktrees
  import opened Porcelain

  /** The number of marker lines among the first `n` lines. */
  function MarkerCount(lines: seq<string>, n: nat): nat
    requires n <= |lines|
  {
    if n == 0 then 0
    else MarkerCount(lines, n - 1) + (if IsMarker(lines[n - 1]) then 1 else 0)
  }

  /**
    Where the stanza opened at line `i` ends among the first `n` lines: at the
    next marker line, or at `n` when no marker follows.
   */
  function StanzaEnd(lines: seq<string>, i: nat, n: nat): (end: nat)
    requires i < n <= |lines|
    ensures i < end <= n
    ensures end < n ==> IsMarker(lines[end])
    ensures forall j :: i < j < end ==> !IsMarker(lines[j])
    decreases n - i
  {
    if i + 1 == n || IsMarker(lines[i + 1]) then i + 1 else StanzaEnd(lines, i + 1, n)
  }

  /** Lines without a marker leave the count unchanged. */
  lemma {:induction false} CountFlat(lines: seq<string>, m: nat, n: nat)
    requires m <= n <= |lines|
    requires forall j :: m <= j < n ==> !IsMarker(lines[j])
    ensures MarkerCount(lines, n) == MarkerCount(lines, m)
    decreases n
  {
    if m < n {
      CountFlat(lines, m, n - 1);
    }
  }

  /** A stanza that ends before a later marker `k` ends at the same line when more lines follow `k`. */
  lemma {:induction false} StanzaEndExtends(lines: seq<string>, i: nat, k: nat, n: nat)
    requires i < k < n <= |lines| && IsMarker(lines[k])
    ensures StanzaEnd(lines, i, k) == StanzaEnd(lines, i, n)
    decreases k - i
  {
    if i + 1 < k && !IsMarker(lines[i + 1]) {
      StanzaEndExtends(lines, i + 1, k, n);
    }
  }

  /** One stanza per marker line. */
  lemma {:induction false} SpansCount(lines: seq<string>, n: nat)
    requires n <= |lines|
    ensures |SpansPrefix(lines, n)| == MarkerCount(lines, n)
    decreases n
  {
    var k := LastWithPrefix(lines, WORKTREE_PREFIX, 0, n);
    LastWithPrefixIsLast(lines, WORKTREE_PREFIX, 0, n);
    if k < 0 {
      CountFlat(lines, 0, n);
    } else {
      SpansCount(lines, k);
      CountFlat(lines, k + 1, n);
    }
  }

  /**
    The stanza of the marker at line `i` comes after one stanza per earlier
    marker and runs up to the next marker.
   */
  lemma {:induction false} SpanOfMarker(lines: seq<string>, n: nat, i: nat)
    requires i < n <= |lines| && IsMarker(lines[i])
    ensures MarkerCount(lines, i) < |SpansPrefix(lines, n)|
    ensures SpansPrefix(lines, n)[MarkerCount(lines, i)] == Span(i, StanzaEnd(lines, i, n))
    decreases n
  {
    var k := LastWithPrefix(lines, WORKTREE_PREFIX, 0, n);
    LastWithPrefixIsLast(lines, WORKTREE_PREFIX, 0, n);
    assert i <= k;
    var front := SpansPrefix(lines, k);
    assert SpansPrefix(lines, n) == front + [Span(k, n)];
    if i < k {
      SpanOfMarker(lines, k, i);
      StanzaEndExtends(lines, i, k, n);
    } else {
      SpansCount(lines, k);
    }
  }

  /** A listing yields one record per marker line. */
  lemma ParseCount(lines: seq<string>)
    ensures |Parse(lines)| == MarkerCount(lines, |lines|)
  {
    SpansCount(lines, |lines|);
  }

  /**
    The record of the marker at line `i` comes after one record per earlier
    marker, carries the path on that line, and is built from the lines up to
    the next marker only.
   */
  lemma RecordOfMarker(lines: seq<string>, i: nat)
    requires i < |lines| && IsMarker(lines[i])
    ensures MarkerCount(lines, i) < |Parse(lines)|
    ensures Parse(lines)[MarkerCount(lines, i)] == Stanza(MarkerPath(lines[i]), lines, i + 1, StanzaEnd(lines, i, |lines|))
  {
    SpanOfMarker(lines, |lines|, i);
  }

  /** Without a marker line there is no record. */
  lemma NoMarkerNoRecord(lines: seq<string>)
    requires forall i :: 0 <= i < |lines| ==> !IsMarker(lines[i])
    ensures Parse(lines) == []
  {
    ParseCount(lines);
    CountFlat(lines, 0, |lines|);
  }

  /** Lines in front of a listing that hold no marker do not move the last marker. */
  lemma {:induction false} LastMarkerShift(pre: seq<string>, rest: seq<string>, n: nat)
    requires n <= |rest|
    requires forall i :: 0 <= i < |pre| ==> !IsMarker(pre[i])
    ensures var k := LastWithPrefix(rest, WORKTREE_PREFIX, 0, n);
      LastWithPrefix(pre + rest, WORKTREE_PREFIX, 0, |pre| + n) == if k < 0 then -1 else |pre| + k
    decreases n
  {
    var all := pre + rest;
    assert forall j :: 0 <= j < |pre| ==> all[j] == pre[j];
    if n > 0 {
      assert all[|pre| + n - 1] == rest[n - 1];
      LastMarkerShift(pre, rest, n - 1);
    }
  }

  /** Spans moved `d` lines down. */
  function ShiftSpans(spans: seq<Span>, d: nat): (moved: seq<Span>)
    ensures |moved| == |spans|
    ensures forall j :: 0 <= j < |spans| ==> moved[j] == Span(d + spans[j].marker, d + spans[j].end)
  {
    seq(|spans|, j requires 0 <= j < |spans| => Span(d + spans[j].marker, d + spans[j].end))
  }

  /** Shifting spans commutes with adding one at the end. */
  lemma ShiftSpansSnoc(spans: seq<Span>, s: Span, d: nat)
    ensures ShiftSpans(spans + [s], d) == ShiftSpans(spans, d) + [Span(d + s.marker, d + s.end)]
  {
    assert forall j :: 0 <= j < |spans| ==> (spans + [s])[j] == spans[j];
  }

  /** The step of `SpansShift`: once the stanzas before the last marker are shifted, so is the last one. */
  lemma SpansShiftStep(pre: seq<string>, rest: seq<string>, n: nat, k: nat)
    requires k < n <= |rest|
    requires k == LastWithPrefix(rest, WORKTREE_PREFIX, 0, n)
    requires LastWithPrefix(pre + rest, WORKTREE_PREFIX, 0, |pre| + n) == |pre| + k
    requires SpansPrefix(pre + rest, |pre| + k) == ShiftSpans(SpansPrefix(rest, k), |pre|)
    ensures SpansPrefix(pre + rest, |pre| + n) == ShiftSpans(SpansPrefix(rest, n), |pre|)
  {
    var front := SpansPrefix(rest, k);
    assert SpansPrefix(rest, n) == front + [Span(k, n)];
    ShiftSpansSnoc(front, Span(k, n), |pre|);
  }

  /** Marker-free lines in front of a listing move its stanzas down and change nothing else. */
  lemma {:induction false} SpansShift(pre: seq<string>, rest: seq<string>, n: nat)
    requires n <= |rest|
    requires forall i :: 0 <= i < |pre| ==> !IsMarker(pre[i])
    ensures SpansPrefix(pre + rest, |pre| + n) == ShiftSpans(SpansPrefix(rest, n), |pre|)
    decreases n
  {
    LastMarkerShift(pre, rest, n);
    var k := LastWithPrefix(rest, WORKTREE_PREFIX, 0, n);
    if 0 <= k {
      SpansShift(pre, rest, k);
      SpansShiftStep(pre, rest, n, k);
    }
  }

  /** A stanza reads the same lines whatever comes before them. */
  lemma {:induction false} StanzaShift(path: string, pre: seq<string>, rest: seq<string>, lo: nat, hi: nat)
    requires lo <= hi <= |rest|
    ensures Stanza(path, pre + rest, |pre| + lo, |pre| + hi) == Stanza(path, rest, lo, hi)
    decreases hi
  {
    if lo < hi {
      StanzaShift(path, pre, rest, lo, hi - 1);
      assert (pre + rest)[|pre| + hi - 1] == rest[hi - 1];
    }
  }

  /** A stanza's record is the same whatever marker-free lines come before it. */
  lemma RecordShift(pre: seq<string>, rest: seq<string>, s: Span)
    requires s.marker < s.end <= |rest| && IsMarker(rest[s.marker])
    ensures IsMarker((pre + rest)[|pre| + s.marker])
    ensures Record(pre + rest, Span(|pre| + s.marker, |pre| + s.end)) == Record(rest, s)
  {
    var all, m, e := pre + rest, s.marker, s.end;
    assert all[|pre| + m] == rest[m];
    var path := MarkerPath(rest[m]);
    StanzaShift(path, pre, rest, m + 1, e);
    assert |pre| + (m + 1) == (|pre| + m) + 1;
  }

  /** Marker-free lines in front of a listing change no record of the shifted stanzas. */
  lemma RecordsShift(pre: seq<string>, rest: seq<string>, spans: seq<Span>)
    requires SpansIn(rest, spans)
    ensures SpansIn(pre + rest, ShiftSpans(spans, |pre|))
    ensures Records(pre + rest, ShiftSpans(spans, |pre|)) == Records(rest, spans)
  {
    var moved := ShiftSpans(spans, |pre|);
    forall j | 0 <= j < |spans|
      ensures moved[j].marker < moved[j].end <= |pre + rest| && IsMarker((pre + rest)[moved[j].marker])
      ensures Record(pre + rest, moved[j]) == Record(rest, spans[j])
    {
      RecordShift(pre, rest, spans[j]);
    }
  }

  /** Lines before the first marker are ignored. */
  lemma ParseIgnoresPreamble(pre: seq<string>, rest: seq<string>)
    requires forall i :: 0 <= i < |pre| ==> !IsMarker(pre[i])
    ensures Parse(pre + rest) == Parse(rest)
  {
    SpansShift(pre, rest, |rest|);
    RecordsShift(pre, rest, SpansPrefix(rest, |rest|));
    assert |pre + rest| == |pre| + |rest|;
  }

  /** The three fields a keyed line sets. */
  datatype Field = Head | Branch | Prunable

  function FieldPrefix(f: Field): string {
    match f
    case Head => HEAD_PREFIX
    case Branch => BRANCH_PREFIX
    case Prunable => PRUNABLE_PREFIX
  }

  function FieldOf(w: Worktree, f: Field): Option<string> {
    match f
    case Head => w.head
    case Branch => w.branch
    case Prunable => w.prunable
  }

  /** The trimmed value of the last line of `lines[lo..hi]` that starts with `prefix`, if any. */
  function LastValue(lines: seq<string>, prefix: string, lo: nat, hi: nat): Option<string>
    requires lo <= hi <= |lines|
  {
    var k := LastWithPrefix(lines, prefix, lo, hi);
    if k < 0 then None else Some(Value(lines[k], prefix))
  }

  /**
    A line sets a value field exactly when it starts (untrimmed) with that
    field's key, and sets it to the trimmed rest; otherwise the field keeps
    its value. In particular no line sets two fields.
   */
  lemma ApplyLineField(w: Worktree, line: string, f: Field)
    ensures FieldOf(ApplyLine(w, line), f)
      == if FieldPrefix(f) <= line then Some(Value(line, FieldPrefix(f))) else FieldOf(w, f)
  {
    if PRUNABLE_PREFIX <= line {
      assert line[0] == 'p';
      TrimKeepsHead(line);
    }
    if BRANCH_PREFIX <= line {
      assert line[0] == 'b';
    }
  }

  /** The two flags a line sets by its trimmed text. */
  datatype Flag = Detached | Locked

  function FlagWord(f: Flag): string {
    match f
    case Detached => "detached"
    case Locked => "locked"
  }

  /** A line that sets flag `f`: its trimmed text is the flag's word. */
  predicate SetsFlag(line: string, f: Flag) {
    Trim(line) == FlagWord(f)
  }

  function FlagOf(w: Worktree, f: Flag): bool {
    match f
    case Detached => w.detached
    case Locked => w.locked
  }

  /** A line sets a flag exactly when its trimmed text is the flag's word; no line clears a flag. */
  lemma ApplyLineFlag(w: Worktree, line: string, f: Flag)
    ensures FlagOf(ApplyLine(w, line), f) == (FlagOf(w, f) || SetsFlag(line, f))
  {
    if HEAD_PREFIX <= line {
      assert line[0] == 'H';
      TrimKeepsHead(line);
    } else if BRANCH_PREFIX <= line {
      assert line[0] == 'b';
      TrimKeepsHead(line);
    }
  }

  /**
    In a stanza, a value field comes from the last line that starts with its
    key, trimmed; with no such line it stays `None`.
   */
  lemma {:induction false} StanzaField(path: string, lines: seq<string>, lo: nat, hi: nat, f: Field)
    requires lo <= hi <= |lines|
    ensures FieldOf(Stanza(path, lines, lo, hi), f) == LastValue(lines, FieldPrefix(f), lo, hi)
    decreases hi
  {
    if lo < hi {
      StanzaField(path, lines, lo, hi - 1, f);
      ApplyLineField(Stanza(path, lines, lo, hi - 1), lines[hi - 1], f);
    }
  }

  /** One more line extends the set of lines that may have set a flag by that line. */
  lemma StanzaFlagStep(path: string, lines: seq<string>, lo: nat, hi: nat, f: Flag)
    requires lo < hi <= |lines|
    requires FlagOf(Stanza(path, lines, lo, hi - 1), f) <==> exists i :: lo <= i < hi - 1 && SetsFlag(lines[i], f)
    ensures FlagOf(Stanza(path, lines, lo, hi), f) <==> exists i :: lo <= i < hi && SetsFlag(lines[i], f)
  {
    ApplyLineFlag(Stanza(path, lines, lo, hi - 1), lines[hi - 1], f);
  }

  /** In a stanza, a flag is set exactly when some line of it trims to the flag's word. */
  lemma {:induction false} StanzaFlag(path: string, lines: seq<string>, lo: nat, hi: nat, f: Flag)
    requires lo <= hi <= |lines|
    ensures FlagOf(Stanza(path, lines, lo, hi), f) <==> exists i :: lo <= i < hi && SetsFlag(lines[i], f)
    decreases hi
  {
    if lo < hi {
      StanzaFlag(path, lines, lo, hi - 1, f);
      StanzaFlagStep(path, lines, lo, hi, f);
    }
  }

  /**
    Everything about the record of the marker at line `i`: where it sits in
    the result, its path, and each field in terms of the lines of its stanza.
   */
  lemma ParsedRecord(lines: seq<string>, i: nat)
    requires i < |lines| && IsMarker(lines[i])
    ensures var end, r := StanzaEnd(lines, i, |lines|), MarkerCount(lines, i);
      r < |Parse(lines)| &&
      Parse(lines)[r].path == MarkerPath(lines[i]) &&
      Parse(lines)[r].head == LastValue(lines, HEAD_PREFIX, i + 1, end) &&
      Parse(lines)[r].branch == LastValue(lines, BRANCH_PREFIX, i + 1, end) &&
      Parse(lines)[r].prunable == LastValue(lines, PRUNABLE_PREFIX, i + 1, end) &&
      (Parse(lines)[r].detached <==> exists j :: i < j < end && SetsFlag(lines[j], Detached)) &&
      (Parse(lines)[r].locked <==> exists j :: i < j < end && SetsFlag(lines[j], Locked))
  {
    RecordOfMarker(lines, i);
    var end := StanzaEnd(lines, i, |lines|);
    var path := MarkerPath(lines[i]);
    StanzaField(path, lines, i + 1, end, Head);
    StanzaField(path, lines, i + 1, end, Branch);
    StanzaField(path, lines, i + 1, end, Prunable);
    StanzaFlag(path, lines, i + 1, end, Detached);
    StanzaFlag(path, lines, i + 1, end, Locked);
  }
}
