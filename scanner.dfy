/** The `scan` command: one pass over the log's lines that remembers the date of
    the last header seen, prints every header, and prints the other lines that
    sit under a header whose date is in range and that match the pattern. */
module Scanner {

  import opened Outcomes
  import opened Text
  import opened Calendar
  import opened DateText
  import opened Ranges

  /** `current_date` after reading `lines`: the date of the last header among them. */
  function LastHeader(lines: seq<string>): (r: Option<Date>)
    ensures r.Some? ==> Valid(r.value) && 0 <= r.value.year <= 9999
  {
    if lines == [] then None
    else if IsHeader(lines[|lines| - 1]) then ParseDate(lines[|lines| - 1])
    else LastHeader(lines[..|lines| - 1])
  }

  /** Whether the scan prints `line` when `current` is the date in force: a
      header always; any other line only under a header whose date is within
      the bounds, and then only if there is no pattern, or the line holds the
      pattern, or it holds the header's date text. */
  predicate Emits(current: Option<Date>, line: string, bounds: Bounds, pattern: Option<string>)
    requires current.Some? ==> Valid(current.value)
  {
    IsHeader(line)
    || (current.Some? && InRange(bounds, current.value)
        && (pattern.None? || Contains(line, pattern.value) || Contains(line, Format(current.value))))
  }

  /** The lines the scan prints, in the order it prints them. */
  function Scanned(lines: seq<string>, bounds: Bounds, pattern: Option<string>): (out: seq<string>)
    ensures |out| <= |lines|
  {
    if lines == [] then []
    else
      var init, line := lines[..|lines| - 1], lines[|lines| - 1];
      Scanned(init, bounds, pattern) + (if Emits(LastHeader(init), line, bounds, pattern) then [line] else [])
  }

  /** The positions in `lines` of the printed lines: strictly increasing, and
      the printed lines are the lines at those positions. */
  function Kept(lines: seq<string>, bounds: Bounds, pattern: Option<string>): (ks: seq<int>)
    ensures |ks| == |Scanned(lines, bounds, pattern)|
    ensures forall j :: 0 <= j < |ks| ==> 0 <= ks[j] < |lines| && Scanned(lines, bounds, pattern)[j] == lines[ks[j]]
    ensures forall j, k :: 0 <= j < k < |ks| ==> ks[j] < ks[k]
  {
    if lines == [] then []
    else
      var init, line := lines[..|lines| - 1], lines[|lines| - 1];
      var before := Kept(init, bounds, pattern);
      assert forall j :: 0 <= j < |before| ==> lines[before[j]] == init[before[j]];
      before + (if Emits(LastHeader(init), line, bounds, pattern) then [|init|] else [])
  }

  /** `xs` is `ys` with some elements left out, the rest kept in order, as
      witnessed by the positions `idx`. */
  ghost predicate Embeds<T>(xs: seq<T>, ys: seq<T>, idx: seq<int>) {
    && |idx| == |xs|
    && (forall j :: 0 <= j < |idx| ==> 0 <= idx[j] < |ys| && xs[j] == ys[idx[j]])
    && (forall j, k :: 0 <= j < k < |idx| ==> idx[j] < idx[k])
  }

  ghost predicate IsSubsequence<T>(xs: seq<T>, ys: seq<T>) {
    exists idx :: Embeds(xs, ys, idx)
  }

  /** The scan prints an in-order subsequence of the log's lines. */
  lemma {:induction false} ScannedIsSubsequence(lines: seq<string>, bounds: Bounds, pattern: Option<string>)
    ensures IsSubsequence(Scanned(lines, bounds, pattern), lines)
  {
    assert Embeds(Scanned(lines, bounds, pattern), lines, Kept(lines, bounds, pattern));
  }

  /** A line is printed exactly when the test of the loop body passes for it,
      with the date of the last header above it as `current_date`. */
  lemma {:induction false} KeptExactly(lines: seq<string>, bounds: Bounds, pattern: Option<string>, k: int)
    ensures k in Kept(lines, bounds, pattern) <==>
      0 <= k < |lines| && Emits(LastHeader(lines[..k]), lines[k], bounds, pattern)
    decreases |lines|
  {
    if lines != [] {
      var init := lines[..|lines| - 1];
      var before := Kept(init, bounds, pattern);
      var last := if Emits(LastHeader(init), lines[|init|], bounds, pattern) then [|init|] else [];
      assert Kept(lines, bounds, pattern) == before + last;
      KeptExactly(init, bounds, pattern, k);
      if 0 <= k < |init| {
        assert init[..k] == lines[..k] && init[k] == lines[k];
        assert k !in last;
      } else if k == |init| {
        assert init == lines[..k];
        assert k !in before;
      } else {
        assert k !in last;
      }
    }
  }

  /** In-range test, inclusive at both ends: a line that is not a header is
      printed without a pattern exactly when a header lies above it and that
      header's date is between the bounds. */
  lemma {:induction false} RangeFilter(lines: seq<string>, bounds: Bounds, k: int)
    requires 0 <= k < |lines| && !IsHeader(lines[k])
    ensures k in Kept(lines, bounds, None) <==>
      match LastHeader(lines[..k])
      case None => false
      case Some(d) => InRange(bounds, d)
  {
    KeptExactly(lines, bounds, None, k);
  }

  /** With a pattern, a line that is not a header under an in-range header is
      printed exactly when it holds the pattern or the header's date text. */
  lemma {:induction false} PatternFilter(lines: seq<string>, bounds: Bounds, p: string, k: int)
    requires 0 <= k < |lines| && !IsHeader(lines[k])
    requires LastHeader(lines[..k]).Some? && InRange(bounds, LastHeader(lines[..k]).value)
    ensures k in Kept(lines, bounds, Some(p)) <==>
      Contains(lines[k], p) || Contains(lines[k], Format(LastHeader(lines[..k]).value))
  {
    KeptExactly(lines, bounds, Some(p), k);
  }

  /** Every header is printed, whatever the range and the pattern. */
  lemma {:induction false} HeadersAlwaysKept(lines: seq<string>, bounds: Bounds, pattern: Option<string>, k: int)
    requires 0 <= k < |lines| && IsHeader(lines[k])
    ensures k in Kept(lines, bounds, pattern)
  {
    KeptExactly(lines, bounds, pattern, k);
  }

  /** The header lines of a sequence of lines, in order. */
  function Headers(lines: seq<string>): (hs: seq<string>)
    ensures forall h :: h in hs ==> IsHeader(h)
  {
    if lines == [] then []
    else Headers(lines[..|lines| - 1]) + (if IsHeader(lines[|lines| - 1]) then [lines[|lines| - 1]] else [])
  }

  lemma {:induction false} HeadersSnoc(lines: seq<string>, line: string)
    ensures Headers(lines + [line]) == Headers(lines) + (if IsHeader(line) then [line] else [])
  {
    assert (lines + [line])[..|lines|] == lines;
  }

  /** The scan prints exactly the log's headers, all of them and in order,
      among whatever other lines it prints. */
  lemma {:induction false} HeadersPreserved(lines: seq<string>, bounds: Bounds, pattern: Option<string>)
    ensures Headers(Scanned(lines, bounds, pattern)) == Headers(lines)
    decreases |lines|
  {
    if lines != [] {
      var init, line := lines[..|lines| - 1], lines[|lines| - 1];
      HeadersPreserved(init, bounds, pattern);
      var before := Scanned(init, bounds, pattern);
      assert init + [line] == lines;
      HeadersSnoc(init, line);
      if Emits(LastHeader(init), line, bounds, pattern) {
        assert Scanned(lines, bounds, pattern) == before + [line];
        HeadersSnoc(before, line);
      } else {
        assert Scanned(lines, bounds, pattern) == before + [];
        assert before + [] == before;
      }
    }
  }

  predicate NoHeader(lines: seq<string>) {
    forall i :: 0 <= i < |lines| ==> !IsHeader(lines[i])
  }

  /** A preamble without a header leaves no date in force. */
  lemma {:induction false} LastHeaderPreamble(pre: seq<string>, rest: seq<string>)
    requires NoHeader(pre)
    ensures LastHeader(pre + rest) == LastHeader(rest)
    decreases |rest|
  {
    if rest == [] {
      assert pre + rest == pre;
      NoHeaderNoDate(pre);
    } else {
      var lines := pre + rest;
      assert lines[..|lines| - 1] == pre + rest[..|rest| - 1];
      LastHeaderPreamble(pre, rest[..|rest| - 1]);
    }
  }

  lemma {:induction false} NoHeaderNoDate(lines: seq<string>)
    requires NoHeader(lines)
    ensures LastHeader(lines) == None
    decreases |lines|
  {
    if lines != [] {
      NoHeaderNoDate(lines[..|lines| - 1]);
    }
  }

  /** A header-free preamble changes nothing the rest of the log prints. */
  lemma {:induction false} PreambleIgnored(pre: seq<string>, rest: seq<string>, bounds: Bounds, pattern: Option<string>)
    requires NoHeader(pre)
    ensures Scanned(pre + rest, bounds, pattern) == Scanned(rest, bounds, pattern)
    decreases |rest|
  {
    if rest == [] {
      NothingWithoutHeader(pre, bounds, pattern);
      assert pre + rest == pre;
    } else {
      var init, line := rest[..|rest| - 1], rest[|rest| - 1];
      PreambleIgnored(pre, init, bounds, pattern);
      LastHeaderPreamble(pre, init);
      var emitted := if Emits(LastHeader(init), line, bounds, pattern) then [line] else [];
      assert Scanned(pre + rest, bounds, pattern) == Scanned(pre + init, bounds, pattern) + emitted by {
        assert pre + rest == (pre + init) + [line];
        ScannedSnoc(pre + init, line, bounds, pattern);
      }
      assert Scanned(rest, bounds, pattern) == Scanned(init, bounds, pattern) + emitted by {
        assert rest == init + [line];
        ScannedSnoc(init, line, bounds, pattern);
      }
    }
  }

  /** Reading one more line prints it or not, after what was printed before. */
  lemma {:induction false} ScannedSnoc(lines: seq<string>, line: string, bounds: Bounds, pattern: Option<string>)
    ensures Scanned(lines + [line], bounds, pattern) ==
      Scanned(lines, bounds, pattern) + (if Emits(LastHeader(lines), line, bounds, pattern) then [line] else [])
  {
    assert (lines + [line])[..|lines|] == lines;
  }

  /** Lines before the first header are never printed. */
  lemma {:induction false} NothingWithoutHeader(lines: seq<string>, bounds: Bounds, pattern: Option<string>)
    requires NoHeader(lines)
    ensures Scanned(lines, bounds, pattern) == []
    decreases |lines|
  {
    if lines != [] {
      var init := lines[..|lines| - 1];
      NothingWithoutHeader(init, bounds, pattern);
      NoHeaderNoDate(init);
    }
  }

  /** With no range and no pattern, a log that starts with a header is printed
      whole. */
  lemma {:induction false} UnfilteredPrintsAll(lines: seq<string>)
    requires lines != [] && IsHeader(lines[0])
    ensures Scanned(lines, Unbounded, None) == lines
    decreases |lines|
  {
    var init := lines[..|lines| - 1];
    if init != [] {
      UnfilteredPrintsAll(init);
      HeaderInForce(init);
    }
  }

  /** Once a header has been read, some date is in force. */
  lemma {:induction false} HeaderInForce(lines: seq<string>)
    requires lines != [] && IsHeader(lines[0])
    ensures LastHeader(lines).Some?
    decreases |lines|
  {
    if |lines| > 1 && !IsHeader(lines[|lines| - 1]) {
      HeaderInForce(lines[..|lines| - 1]);
    }
  }

  /** The pattern search prints a subsequence of what the plain search prints. */
  lemma {:induction false} PatternNarrows(lines: seq<string>, bounds: Bounds, p: string)
    ensures IsSubsequence(Scanned(lines, bounds, Some(p)), Scanned(lines, bounds, None))
  {
    var idx := PatternWitness(lines, bounds, p);
  }

  lemma {:induction false} PatternWitness(lines: seq<string>, bounds: Bounds, p: string) returns (idx: seq<int>)
    ensures Embeds(Scanned(lines, bounds, Some(p)), Scanned(lines, bounds, None), idx)
    decreases |lines|
  {
    if lines == [] {
      idx := [];
    } else {
      var init, line := lines[..|lines| - 1], lines[|lines| - 1];
      var before := PatternWitness(init, bounds, p);
      var xs, ys := Scanned(init, bounds, Some(p)), Scanned(init, bounds, None);
      var cur := LastHeader(init);
      if Emits(cur, line, bounds, Some(p)) {
        assert Emits(cur, line, bounds, None);
        idx := before + [|ys|];
        assert Embeds(xs + [line], ys + [line], idx);
      } else if Emits(cur, line, bounds, None) {
        idx := before;
        assert Embeds(xs, ys + [line], idx);
      } else {
        idx := before;
      }
    }
  }

  /** An empty pattern is found in every line, so it filters nothing. */
  lemma {:induction false} EmptyPatternIsNone(lines: seq<string>, bounds: Bounds)
    ensures Scanned(lines, bounds, Some("")) == Scanned(lines, bounds, None)
    decreases |lines|
  {
    if lines != [] {
      var init, line := lines[..|lines| - 1], lines[|lines| - 1];
      EmptyPatternIsNone(init, bounds);
      ContainsFacts(line, [], []);
    }
  }

  /** Reading one more line changes the date in force only if it is a header. */
  lemma {:induction false} LastHeaderSnoc(lines: seq<string>, line: string)
    ensures LastHeader(lines + [line]) == if IsHeader(line) then ParseDate(line) else LastHeader(lines)
  {
    assert (lines + [line])[..|lines|] == lines;
  }

  /** The loop of the `Scan` arm over already-derived bounds. */
  method ScanLines(lines: seq<string>, bounds: Bounds, pattern: Option<string>) returns (out: seq<string>)
    ensures out == Scanned(lines, bounds, pattern)
  {
    out := [];
    var current: Option<Date> := None;
    for i := 0 to |lines|
      invariant out == Scanned(lines[..i], bounds, pattern)
      invariant current == LastHeader(lines[..i])
    {
      var line := lines[i];
      assert lines[..i + 1] == lines[..i] + [line];
      ScannedSnoc(lines[..i], line, bounds, pattern);
      LastHeaderSnoc(lines[..i], line);
      var parsed := ParseDate(line);
      if parsed.Some? {
        current := parsed;
        out := out + [line];
      } else if current.Some? {
        var date := current.value;
        if InRange(bounds, date) {
          match pattern
          case Some(p) =>
            if Contains(line, p) || Contains(line, Format(date)) {
              out := out + [line];
            }
          case None =>
            out := out + [line];
        }
      }
    }
    assert lines[..|lines|] == lines;
  }

  /** The `Scan` arm: derive the bounds from the selector and today's date,
      then scan. It aborts exactly when `ThisMonth` is asked for in December. */
  method Scan(lines: seq<string>, pattern: Option<string>, range: Option<Selector>, today: Date)
    returns (r: Result<seq<string>>)
    requires Valid(today)
    ensures r.Panic? <==> range == Some(ThisMonth) && today.month == 12
    ensures r.Ok? ==>
      DeriveBounds(range, today).Ok? && r.value == Scanned(lines, DeriveBounds(range, today).value, pattern)
  {
    var bounds := DeriveBounds(range, today);
    if bounds.Panic? {
      return Panic(bounds.message);
    }
    var out := ScanLines(lines, bounds.value, pattern);
    return Ok(out);
  }
}
