/** The logging commands `set`, `max`, `myo` and `down`: make sure the log has
    a header for today (`valid_date`), then append one indented entry line. */
module LogWriter {

  import opened Outcomes
  import opened Text
  import opened Calendar
  import opened DateText
  import opened Ranges
  import opened Scanner

  type U8 = x: int | 0 <= x < 0x100
  type U16 = x: int | 0 <= x < 0x1_0000

  /** How the build treats `u16` overflow: a debug build panics, a release
      build wraps round modulo 2^16. */
  datatype Overflow = Checked | Wrapping

  /** One logged exercise, with the integer widths of its command-line
      arguments. */
  datatype Entry =
    | Set(exercise: string, sets: U8, reps: U8, weight: U8, rir: U8)
    | Max(exercise: string, weight: U8)
    | Myo(exercise: string, sets: U8, reps: U8, rests: U8, weight: U8)
    | Down(exercise: string, startingReps: U16, weight: U8)

  /** `1 + 2 + … + n`: the reps of a down set that starts at `n` reps and drops
      by one each set. */
  function Sum(n: nat): nat {
    if n == 0 then 0 else Sum(n - 1) + n
  }

  /** Gauss: the closed form the `down` command uses. */
  lemma {:induction false} SumClosedForm(n: nat)
    ensures Sum(n) == n * (n + 1) / 2
  {
    if n > 0 {
      SumClosedForm(n - 1);
      assert n * (n + 1) == (n - 1) * n + 2 * n;
    }
  }

  /** `(n * (n + 1)) / 2` evaluated in `u16`, as written. */
  function DownTotal(n: U16, mode: Overflow): (r: Result<U16>)
  {
    match mode
    case Checked =>
      if n + 1 >= 0x1_0000 then Panic("attempt to add with overflow")
      else if n * (n + 1) >= 0x1_0000 then Panic("attempt to multiply with overflow")
      else Ok(n * (n + 1) / 2)
    case Wrapping =>
      Ok(n * ((n + 1) % 0x1_0000) % 0x1_0000 / 2)
  }

  /** The total is right exactly up to 255 starting reps: beyond that a debug
      build panics, and a release build still answers but, from 256 on, the
      wrong number. */
  lemma {:induction false} DownTotalRange(n: U16, mode: Overflow)
    ensures n <= 255 ==> DownTotal(n, mode) == Ok(Sum(n))
    ensures mode == Checked ==> (DownTotal(n, mode).Ok? <==> n <= 255)
    ensures mode == Checked && DownTotal(n, mode).Ok? ==> DownTotal(n, mode).value == Sum(n)
  {
    var p := n * (n + 1);
    assert Sum(n) == p / 2 by {
      SumClosedForm(n);
    }
    if n <= 255 {
      assert p <= 255 * 256 by {
        MulMono(n, n + 1, 255, 256);
      }
      assert (n + 1) % 0x1_0000 == n + 1;
      assert p % 0x1_0000 == p;
    } else {
      assert p >= 256 * 257 by {
        MulMono(256, 257, n, n + 1);
      }
    }
  }

  lemma {:induction false} MulMono(a: nat, b: nat, c: nat, d: nat)
    requires a <= c && b <= d
    ensures a * b <= c * d
  {
    assert a * b <= c * b;
    assert c * b <= c * d;
  }

  /** Starting at 256 reps, a release build logs 128 total reps instead of
      32896, and a debug build panics. */
  lemma {:induction false} DownTotalWraps()
    ensures DownTotal(256, Wrapping) == Ok(128) && Sum(256) == 32896
    ensures DownTotal(256, Checked).Panic?
  {
    SumClosedForm(256);
  }

  /** The total computed in a type wide enough for every `u16` starting count. */
  function DownTotalWide(n: U16): (t: nat)
    ensures t == Sum(n)
  {
    SumClosedForm(n);
    n * (n + 1) / 2
  }

  const INDENT := "    "

  /** The shape every entry template shares: four spaces, the `#` tag, the
      exercise's name, then the fields. The line is indented, so it is never
      a header, and it holds the exercise's name. */
  function EntryLine(tag: string, exercise: string, fields: string): (s: string)
    ensures |s| > 0 && s[0] == ' '
    ensures Contains(s, exercise)
  {
    ContainsFacts(exercise, INDENT + tag, fields);
    INDENT + tag + exercise + fields
  }

  /** The entry line the command appends, as its `writeln!` template lays it
      out. The `down` total is evaluated before anything is written, so its
      overflow panic leaves the file as it was. */
  function Render(e: Entry, mode: Overflow): (r: Result<string>)
    ensures r.Panic? <==> e.Down? && DownTotal(e.startingReps, mode).Panic?
  {
    match e
    case Set(x, sets, reps, weight, rir) =>
      Ok(EntryLine("#set ", x, ": " + Decimal(sets) + "x" + Decimal(reps)
         + " [" + Decimal(weight) + "lbs] (" + Decimal(rir) + " RIR)"))
    case Max(x, weight) =>
      Ok(EntryLine("#max ", x, ": [" + Decimal(weight) + "lbs]"))
    case Myo(x, sets, reps, rests, weight) =>
      Ok(EntryLine("#myo ", x, ": " + Decimal(sets) + "x" + Decimal(reps)
         + " [" + Decimal(weight) + "lbs] (" + Decimal(rests) + " rests)"))
    case Down(x, n, weight) =>
      match DownTotal(n, mode)
      case Panic(msg) => Panic(msg)
      case Ok(total) =>
        Ok(EntryLine("#down ", x, ": " + Decimal(total) + " => " + Decimal(n) + " [" + Decimal(weight) + "lbs]"))
  }

  /** An entry line is never taken for a header by the scan, and a search for
      the exercise's name finds it. */
  lemma {:induction false} RenderedEntry(e: Entry, mode: Overflow)
    requires Render(e, mode).Ok?
    ensures !IsHeader(Render(e, mode).value)
    ensures Contains(Render(e, mode).value, e.exercise)
  {
    var s := Render(e, mode).value;
    if IsHeader(s) {
      HeaderShape(s);
    }
  }

  /** Worked entries: a one-rep max, and a down set from 5 reps, which logs
      5 + 4 + 3 + 2 + 1 = 15 total reps. */
  lemma {:induction false} WorkedMax()
    ensures Render(Max("bench", 185), Checked) == Ok("    #max bench: [185lbs]")
  {
    var fields := ": [" + Decimal(185) + "lbs]";
    MaxFields();
    MaxLine();
    assert Render(Max("bench", 185), Checked) == Ok(EntryLine("#max ", "bench", fields));
  }

  lemma {:induction false} MaxLine()
    ensures EntryLine("#max ", "bench", ": [185lbs]") == "    #max bench: [185lbs]"
  {
  }

  lemma {:induction false} MaxFields()
    ensures ": [" + Decimal(185) + "lbs]" == ": [185lbs]"
  {
    assert Decimal(185) == "185";
  }

  lemma {:induction false} WorkedDown()
    ensures Render(Down("dips", 5, 0), Wrapping) == Ok("    #down dips: 15 => 5 [0lbs]")
  {
    var fields := ": " + Decimal(15) + " => " + Decimal(5) + " [" + Decimal(0) + "lbs]";
    DownFields();
    DownLine();
    assert Render(Down("dips", 5, 0), Wrapping) == Ok(EntryLine("#down ", "dips", fields));
  }

  lemma {:induction false} DownLine()
    ensures EntryLine("#down ", "dips", ": 15 => 5 [0lbs]") == "    #down dips: 15 => 5 [0lbs]"
  {
  }

  lemma {:induction false} DownFields()
    ensures DownTotal(5, Wrapping) == Ok(15)
    ensures ": " + Decimal(15) + " => " + Decimal(5) + " [" + Decimal(0) + "lbs]" == ": 15 => 5 [0lbs]"
  {
    assert Decimal(15) == "15" && Decimal(5) == "5" && Decimal(0) == "0";
  }

  /** Worked entries for the two longest templates: straight sets, and a
      myo-rep set, whose written line puts the weight before the rests. */
  lemma {:induction false} WorkedSet()
    ensures Render(Set("squat", 3, 5, 225, 2), Checked) == Ok("    #set squat: 3x5 [225lbs] (2 RIR)")
  {
    var fields := ": " + Decimal(3) + "x" + Decimal(5) + " [" + Decimal(225) + "lbs] (" + Decimal(2) + " RIR)";
    SetFields();
    SetLine();
    assert Render(Set("squat", 3, 5, 225, 2), Checked) == Ok(EntryLine("#set ", "squat", fields));
  }

  lemma {:induction false} SetLine()
    ensures EntryLine("#set ", "squat", ": 3x5 [225lbs] (2 RIR)") == "    #set squat: 3x5 [225lbs] (2 RIR)"
  {
  }

  lemma {:induction false} SetFields()
    ensures ": " + Decimal(3) + "x" + Decimal(5) + " [" + Decimal(225) + "lbs] (" + Decimal(2) + " RIR)"
      == ": 3x5 [225lbs] (2 RIR)"
  {
    SmallDecimals();
    assert Decimal(225) == "225" by {
      assert Decimal(22) == "22";
    }
  }

  lemma {:induction false} SmallDecimals()
    ensures Decimal(2) == "2" && Decimal(3) == "3" && Decimal(4) == "4" && Decimal(5) == "5"
  {
  }

  lemma {:induction false} WorkedMyo()
    ensures Render(Myo("curl", 4, 20, 3, 30), Checked) == Ok("    #myo curl: 4x20 [30lbs] (3 rests)")
  {
    var fields := ": " + Decimal(4) + "x" + Decimal(20) + " [" + Decimal(30) + "lbs] (" + Decimal(3) + " rests)";
    MyoFields();
    MyoLine();
    assert Render(Myo("curl", 4, 20, 3, 30), Checked) == Ok(EntryLine("#myo ", "curl", fields));
  }

  lemma {:induction false} MyoLine()
    ensures EntryLine("#myo ", "curl", ": 4x20 [30lbs] (3 rests)") == "    #myo curl: 4x20 [30lbs] (3 rests)"
  {
  }

  lemma {:induction false} MyoFields()
    ensures ": " + Decimal(4) + "x" + Decimal(20) + " [" + Decimal(30) + "lbs] (" + Decimal(3) + " rests)"
      == ": 4x20 [30lbs] (3 rests)"
  {
    SmallDecimals();
    assert Decimal(20) == "20" && Decimal(30) == "30";
  }

  /** Whether some line holds `date` anywhere in it. */
  predicate Mentions(lines: seq<string>, date: string) {
    exists i :: 0 <= i < |lines| && Contains(lines[i], date)
  }

  /** The loop of `valid_date`: looks at every line for today's date text. */
  method MentionsDate(lines: seq<string>, date: string) returns (found: bool)
    ensures found <==> Mentions(lines, date)
  {
    found := false;
    for i := 0 to |lines|
      invariant found <==> exists j :: 0 <= j < i && Contains(lines[j], date)
    {
      if Contains(lines[i], date) {
        found := true;
      }
    }
  }

  /** The log after `valid_date`: unchanged if today's date text appears
      anywhere in it, otherwise with a blank line and today's header added. */
  function WithTodayHeader(lines: seq<string>, today: Date): (r: seq<string>)
    requires Valid(today)
    ensures |r| == |lines| || |r| == |lines| + 2
    ensures r[..|lines|] == lines
  {
    if Mentions(lines, Format(today)) then lines else lines + ["", Format(today)]
  }

  /** After `valid_date` the log mentions today, so a second call adds nothing. */
  lemma {:induction false} TodayHeaderIdempotent(lines: seq<string>, today: Date)
    requires Valid(today)
    ensures Mentions(WithTodayHeader(lines, today), Format(today))
    ensures WithTodayHeader(WithTodayHeader(lines, today), today) == WithTodayHeader(lines, today)
  {
    var r := WithTodayHeader(lines, today);
    if !Mentions(lines, Format(today)) {
      ContainsFacts(Format(today), [], []);
      assert Contains(r[|r| - 1], Format(today));
    }
  }

  /** When the header is added, it is the last header of the log and names
      today, so entries written next fall under today's date. */
  lemma {:induction false} AddedHeaderInForce(lines: seq<string>, today: Date)
    requires Valid(today) && 0 <= today.year <= 9999
    requires !Mentions(lines, Format(today))
    ensures IsHeader(WithTodayHeader(lines, today)[|lines| + 1])
    ensures LastHeader(WithTodayHeader(lines, today)) == Some(today)
  {
    FormatParses(today);
    var r := WithTodayHeader(lines, today);
    assert r[|r| - 1] == Format(today);
  }

  /** The whole of a logging command on the log's lines. */
  function Logged(lines: seq<string>, e: Entry, today: Date, mode: Overflow): (r: Result<seq<string>>)
    requires Valid(today)
  {
    match Render(e, mode)
    case Panic(msg) => Panic(msg)
    case Ok(line) => Ok(WithTodayHeader(lines, today) + [line])
  }

  /** Logging only appends: the old lines stay as they were, the entry is the
      new last line, and at most a blank line and a header come between. */
  lemma {:induction false} LoggedAppends(lines: seq<string>, e: Entry, today: Date, mode: Overflow)
    requires Valid(today)
    ensures Logged(lines, e, today, mode).Panic? <==> Render(e, mode).Panic?
    ensures Logged(lines, e, today, mode).Ok? ==>
      var r := Logged(lines, e, today, mode).value;
      && r[..|lines|] == lines
      && r[|r| - 1] == Render(e, mode).value
      && (|r| == |lines| + 1 || |r| == |lines| + 3)
  {
    if Render(e, mode).Ok? {
      var w := WithTodayHeader(lines, today);
      assert (w + [Render(e, mode).value])[..|lines|] == w[..|lines|];
    }
  }

  /** Logging an entry to a log with no mention of today makes it show up in
      a `scan --range today`, as the last line printed. */
  lemma {:induction false} LoggedShowsToday(lines: seq<string>, e: Entry, today: Date, mode: Overflow)
    requires Valid(today) && 0 <= today.year <= 9999
    requires !Mentions(lines, Format(today)) && Render(e, mode).Ok?
    ensures var out := Scanned(Logged(lines, e, today, mode).value, Between(today, today), None);
      |out| > 0 && out[|out| - 1] == Render(e, mode).value
  {
    var w := WithTodayHeader(lines, today);
    var line := Render(e, mode).value;
    AddedHeaderInForce(lines, today);
    ScannedSnoc(w, line, Between(today, today), None);
  }

  /** At most one header per day: no two header lines name the same date. */
  predicate HeadersDistinct(lines: seq<string>) {
    forall i, j :: 0 <= i < j < |lines| && IsHeader(lines[i]) && IsHeader(lines[j]) ==>
      ParseDate(lines[i]) != ParseDate(lines[j])
  }

  /** The days of the log in order: each header names a later date than every
      header above it. */
  predicate HeadersAscending(lines: seq<string>) {
    forall i, j :: 0 <= i < j < |lines| && IsHeader(lines[i]) && IsHeader(lines[j]) ==>
      Before(ParseDate(lines[i]).value, ParseDate(lines[j]).value)
  }

  /** A header names the date of a line exactly when it is that date's text,
      so a log that does not mention today has no header for today. */
  lemma {:induction false} NoHeaderForToday(lines: seq<string>, today: Date, i: int)
    requires Valid(today) && !Mentions(lines, Format(today))
    requires 0 <= i < |lines| && IsHeader(lines[i])
    ensures ParseDate(lines[i]) != Some(today)
  {
    var h := Format(today);
    assert !Contains(lines[i], h);
    ContainsFacts(h, [], []);
    FormatOfParse(lines[i]);
  }

  /** Appending a line that is not a header keeps the headers as they were. */
  lemma {:induction false} AppendNonHeader(lines: seq<string>, line: string)
    requires !IsHeader(line)
    ensures HeadersDistinct(lines) ==> HeadersDistinct(lines + [line])
    ensures HeadersAscending(lines) ==> HeadersAscending(lines + [line])
  {
    var r := lines + [line];
    assert forall i :: 0 <= i < |lines| ==> r[i] == lines[i];
  }

  /** `valid_date` adds a header only for a day that has none yet. */
  lemma {:induction false} TodayHeaderKeepsDistinct(lines: seq<string>, today: Date)
    requires Valid(today) && HeadersDistinct(lines)
    ensures HeadersDistinct(WithTodayHeader(lines, today))
  {
    if !Mentions(lines, Format(today)) {
      var h := Format(today);
      var r := lines + ["", h];
      assert !IsHeader("");
      forall i, j | 0 <= i < j < |r| && IsHeader(r[i]) && IsHeader(r[j])
        ensures ParseDate(r[i]) != ParseDate(r[j])
      {
        if j < |lines| {
          assert r[i] == lines[i] && r[j] == lines[j];
        } else {
          assert j == |lines| + 1 && i < |lines| && r[i] == lines[i] && r[j] == h;
          NoHeaderForToday(lines, today, i);
          assert ParseDate(h) == Some(today) by {
            ParseFormat(h, today);
          }
        }
      }
    }
  }

  /** Logging keeps the log at one header per day: a header is added only when
      no line mentions today, and entry lines are never headers. */
  lemma {:induction false} LoggedKeepsHeadersDistinct(lines: seq<string>, e: Entry, today: Date, mode: Overflow)
    requires Valid(today) && HeadersDistinct(lines) && Render(e, mode).Ok?
    ensures HeadersDistinct(Logged(lines, e, today, mode).value)
  {
    RenderedEntry(e, mode);
    TodayHeaderKeepsDistinct(lines, today);
    AppendNonHeader(WithTodayHeader(lines, today), Render(e, mode).value);
  }

  /** In a log whose days are in order, the last header names the latest day. */
  lemma {:induction false} LastHeaderIsLatest(lines: seq<string>, i: int)
    requires HeadersAscending(lines) && 0 <= i < |lines| && IsHeader(lines[i])
    ensures LastHeader(lines).Some? && AtOrBefore(ParseDate(lines[i]).value, LastHeader(lines).value)
    decreases |lines|
  {
    var n := |lines| - 1;
    if !IsHeader(lines[n]) {
      var init := lines[..n];
      assert forall k :: 0 <= k < n ==> init[k] == lines[k];
      LastHeaderIsLatest(init, i);
    }
  }

  /** Logging on a day no earlier than the log's last day keeps the days in
      order. */
  lemma {:induction false} LoggedKeepsHeadersAscending(lines: seq<string>, e: Entry, today: Date, mode: Overflow)
    requires Valid(today) && HeadersAscending(lines) && Render(e, mode).Ok?
    requires LastHeader(lines).None? || AtOrBefore(LastHeader(lines).value, today)
    ensures HeadersAscending(Logged(lines, e, today, mode).value)
  {
    RenderedEntry(e, mode);
    var w := WithTodayHeader(lines, today);
    assert HeadersAscending(w) by {
      if !Mentions(lines, Format(today)) {
        TodayHeaderKeepsAscending(lines, today);
      }
    }
    AppendNonHeader(w, Render(e, mode).value);
  }

  lemma {:induction false} TodayHeaderKeepsAscending(lines: seq<string>, today: Date)
    requires Valid(today) && HeadersAscending(lines) && !Mentions(lines, Format(today))
    requires LastHeader(lines).None? || AtOrBefore(LastHeader(lines).value, today)
    ensures HeadersAscending(lines + ["", Format(today)])
  {
    var h := Format(today);
    var r := lines + ["", h];
    assert !IsHeader("");
    forall i, j | 0 <= i < j < |r| && IsHeader(r[i]) && IsHeader(r[j])
      ensures Before(ParseDate(r[i]).value, ParseDate(r[j]).value)
    {
      if j < |lines| {
        assert r[i] == lines[i] && r[j] == lines[j];
      } else {
        assert j == |lines| + 1 && i < |lines| && r[i] == lines[i] && r[j] == h;
        var d := ParseDate(lines[i]).value;
        LastHeaderIsLatest(lines, i);
        NoHeaderForToday(lines, today, i);
        assert ParseDate(h) == Some(today) by {
          ParseFormat(h, today);
        }
        Lexicographic(d, today);
      }
    }
  }

  /** A log file on disk, as the list of its lines. */
  class LogFile {
    var lines: seq<string>

    constructor(contents: seq<string>)
      ensures lines == contents
    {
      lines := contents;
    }

    /** `valid_date`. */
    method EnsureTodayHeader(today: Date)
      requires Valid(today)
      modifies this
      ensures lines == WithTodayHeader(old(lines), today)
    {
      var date := Format(today);
      var found := MentionsDate(lines, date);
      if !found {
        lines := lines + ["", date];
      }
    }

    /** One logging command: render the entry (the `down` total may panic
        here, before the file is touched), ensure today's header, then append
        the entry line. */
    method Record(e: Entry, today: Date, mode: Overflow) returns (r: Result<()>)
      requires Valid(today)
      modifies this
      ensures r.Panic? <==> Logged(old(lines), e, today, mode).Panic?
      ensures r.Panic? ==> lines == old(lines)
      ensures r.Ok? ==> lines == Logged(old(lines), e, today, mode).value
    {
      var entry := Render(e, mode);
      if entry.Panic? {
        return Panic(entry.message);
      }
      EnsureTodayHeader(today);
      lines := lines + [entry.value];
      return Ok(());
    }
  }
}
