/**
 * `render-txt.js`: one plain-text file per room and month, holding each day
 * of the month under a header line and each message as a timestamped line,
 * and an index page per room. Months whose file already exists are not
 * rendered again, except the last one listed.
 */
module RenderTxt {
  import opened Common
  import opened Strings
  import opened Events
  import opened Calendar
  import opened RenderCommon

  // ---------------------------------------------------------------------
  // Grouping the days by month

  /** `day.substring(0, 7)`: the `YYYY-MM` month of a day name. */
  function MonthOf(day: string): string {
    if |day| < 7 then day else day[..7]
  }

  /** An entry of the `months` map: a month and the days pushed to it. */
  datatype MonthGroup = MonthGroup(month: string, days: seq<string>)

  /** The months of `days`, each once, in the order of their first day. */
  function FirstMonths(days: seq<string>): seq<string> {
    if days == [] then []
    else
      var ms := FirstMonths(days[..|days| - 1]);
      var m := MonthOf(days[|days| - 1]);
      if m in ms then ms else ms + [m]
  }

  /** No element occurs twice. */
  predicate Distinct(s: seq<string>) {
    forall i, j :: 0 <= i < j < |s| ==> s[i] != s[j]
  }

  /** Some day of `days` is in month `m`. */
  predicate HasMonth(days: seq<string>, m: string) {
    exists d :: d in days && MonthOf(d) == m
  }

  /** The months listed are the months of the days, each once. */
  lemma {:induction false} FirstMonthsSpec(days: seq<string>)
    ensures forall m :: m in FirstMonths(days) <==> HasMonth(days, m)
    ensures Distinct(FirstMonths(days))
  {
    if days != [] {
      var init := days[..|days| - 1];
      var last := days[|days| - 1];
      assert days == init + [last];
      FirstMonthsSpec(init);
      var ms := FirstMonths(init);
      var r := FirstMonths(days);
      forall x ensures x in r <==> HasMonth(days, x) {
        if HasMonth(init, x) {
          var d :| d in init && MonthOf(d) == x;
          assert d in days;
        }
        if HasMonth(days, x) {
          var d :| d in days && MonthOf(d) == x;
          if d != last {
            assert d in init;
          }
        }
      }
      if MonthOf(last) !in ms {
        assert r == ms + [MonthOf(last)];
        forall i, j | 0 <= i < j < |r| ensures r[i] != r[j] {
          assert r[i] == ms[i] && ms[i] in ms;
          if j < |ms| {
            assert r[j] == ms[j];
          }
        }
      }
    }
  }

  /** The days of `days` in month `m`, in their order. */
  function DaysOfMonth(days: seq<string>, m: string): seq<string> {
    if days == [] then []
    else DaysOfMonth(days[..|days| - 1], m) + (if MonthOf(days[|days| - 1]) == m then [days[|days| - 1]] else [])
  }

  /** The days kept are the days of the month. */
  lemma {:induction false} DaysOfMonthSpec(days: seq<string>, m: string)
    ensures forall d :: d in DaysOfMonth(days, m) <==> d in days && MonthOf(d) == m
  {
    if days != [] {
      var init := days[..|days| - 1];
      assert days == init + [days[|days| - 1]];
      DaysOfMonthSpec(init, m);
    }
  }

  /** A month none of whose days is listed keeps no day. */
  lemma {:induction false} DaysOfMonthEmpty(days: seq<string>, m: string)
    requires !HasMonth(days, m)
    ensures DaysOfMonth(days, m) == []
  {
    if days != [] {
      var init := days[..|days| - 1];
      assert days[|days| - 1] in days;
      assert forall d :: d in init ==> d in days;
      DaysOfMonthEmpty(init, m);
    }
  }

  /** The map the grouping loop builds: each month in the order of its first day, with its days in order. */
  function Grouped(days: seq<string>): (g: seq<MonthGroup>)
    ensures |g| == |FirstMonths(days)|
  {
    var ms := FirstMonths(days);
    seq(|ms|, i requires 0 <= i < |ms| => MonthGroup(ms[i], DaysOfMonth(days, ms[i])))
  }

  /** `months.has(m)`, and where `months.get(m)` is. */
  function Find(groups: seq<MonthGroup>, m: string): (r: Option<nat>)
    ensures r.None? <==> forall i :: 0 <= i < |groups| ==> groups[i].month != m
    ensures r.Some? ==> r.value < |groups| && groups[r.value].month == m
  {
    if groups == [] then None
    else if groups[0].month == m then Some(0)
    else match Find(groups[1..], m)
      case None => None
      case Some(k) => Some(k + 1)
  }

  /**
   * Adding one more day to the grouping: its month's entry gains the day
   * at its end, or a new entry holding only the day comes last.
   */
  lemma GroupedStep(ds: seq<string>, d: string)
    ensures var g := Grouped(ds);
      var m := MonthOf(d);
      var k := Find(g, m);
      Grouped(ds + [d]) == if k.Some? then g[k.value := MonthGroup(m, g[k.value].days + [d])] else g + [MonthGroup(m, [d])]
  {
    var all := ds + [d];
    assert all[..|all| - 1] == ds;
    var ms := FirstMonths(ds);
    var g := Grouped(ds);
    var m := MonthOf(d);
    var g' := Grouped(all);
    forall x ensures DaysOfMonth(all, x) == DaysOfMonth(ds, x) + (if m == x then [d] else []) {
    }
    var k := Find(g, m);
    FirstMonthsSpec(ds);
    if k.Some? {
      assert ms[k.value] == m;
      assert FirstMonths(all) == ms;
      var want := g[k.value := MonthGroup(m, g[k.value].days + [d])];
      forall i | 0 <= i < |g'| ensures g'[i] == want[i] {
        if i != k.value {
          assert ms[i] != m by {
            if i < k.value {
              assert ms[i] != ms[k.value];
            } else {
              assert ms[k.value] != ms[i];
            }
          }
        }
      }
    } else {
      assert forall i :: 0 <= i < |ms| ==> ms[i] == g[i].month;
      assert m !in ms;
      DaysOfMonthEmpty(ds, m);
      assert FirstMonths(all) == ms + [m];
      var want := g + [MonthGroup(m, [d])];
      forall i | 0 <= i < |g'| ensures g'[i] == want[i] {
        if i < |ms| {
          assert ms[i] != m;
        }
      }
    }
  }

  /** One pass of the grouping loop: create the month's entry when missing, then push the day onto it. */
  lemma GroupedPush(ds: seq<string>, d: string)
    ensures var g := Grouped(ds);
      var m := MonthOf(d);
      var created := if Find(g, m).None? then g + [MonthGroup(m, [])] else g;
      var k := if Find(g, m).None? then |g| else Find(g, m).value;
      k < |created| && created[k := MonthGroup(m, created[k].days + [d])] == Grouped(ds + [d])
  {
    GroupedStep(ds, d);
    CreateThenPush(Grouped(ds), MonthOf(d), d, Find(Grouped(ds), MonthOf(d)));
  }

  /** Creating a missing entry and then pushing onto it adds an entry holding only the day. */
  lemma CreateThenPush(g: seq<MonthGroup>, m: string, d: string, k: Option<nat>)
    requires k.Some? ==> k.value < |g|
    ensures var created := if k.None? then g + [MonthGroup(m, [])] else g;
      var i := if k.None? then |g| else k.value;
      && i < |created|
      && created[i := MonthGroup(m, created[i].days + [d])]
         == if k.Some? then g[k.value := MonthGroup(m, g[k.value].days + [d])] else g + [MonthGroup(m, [d])]
  {
    if k.None? {
      var created := g + [MonthGroup(m, [])];
      assert created[|g|].days + [d] == [d];
      var pushed := created[|g| := MonthGroup(m, [d])];
      assert |pushed| == |g| + 1;
      forall i | 0 <= i < |pushed| ensures pushed[i] == (g + [MonthGroup(m, [d])])[i] {
      }
    }
  }

  /** The grouping loop: each day goes to the entry of its month, created when first needed. */
  method GroupByMonth(days: seq<string>) returns (months: seq<MonthGroup>)
    ensures months == Grouped(days)
  {
    months := [];
    for i := 0 to |days|
      invariant months == Grouped(days[..i])
    {
      var month := MonthOf(days[i]);
      GroupedPush(days[..i], days[i]);
      assert days[..i + 1] == days[..i] + [days[i]];
      var k := Find(months, month);
      if k.None? {
        months := months + [MonthGroup(month, [])];
        k := Some(|months| - 1);
      }
      months := months[k.value := MonthGroup(month, months[k.value].days + [days[i]])];
    }
    assert days[..|days|] == days;
  }

  /**
   * The grouping: every month of a day has exactly one entry, which holds
   * exactly the days of that month in their order, and the entries come in
   * the order of the months' first days.
   */
  lemma GroupedSpec(days: seq<string>)
    ensures var g := Grouped(days);
      && (forall i :: 0 <= i < |g| ==> g[i].month == FirstMonths(days)[i])
      && Distinct(FirstMonths(days))
      && (forall i :: 0 <= i < |g| ==> HasMonth(days, g[i].month))
      && (forall d :: d in days ==> exists i :: 0 <= i < |g| && g[i].month == MonthOf(d))
      && (forall i, d :: 0 <= i < |g| ==> (d in g[i].days <==> d in days && MonthOf(d) == g[i].month))
  {
    var g := Grouped(days);
    var ms := FirstMonths(days);
    FirstMonthsSpec(days);
    forall i | 0 <= i < |g| ensures forall d :: d in g[i].days <==> d in days && MonthOf(d) == g[i].month {
      DaysOfMonthSpec(days, ms[i]);
    }
    forall d | d in days ensures exists i :: 0 <= i < |g| && g[i].month == MonthOf(d) {
      assert HasMonth(days, MonthOf(d));
      var i :| 0 <= i < |ms| && ms[i] == MonthOf(d);
      assert g[i].month == MonthOf(d);
    }
  }

  // ---------------------------------------------------------------------
  // The months not rendered again

  const MonthPattern: string := "dddd-dd"

  /** `/^[0-9]{4}-[0-9]{2}\.txt$/.test(f)`. */
  predicate IsMonthFile(f: string) {
    DigitPattern(f, MonthPattern + ".txt")
  }

  /** `fs.map(d => d.substring(0, 7))`. */
  function MonthsOf(fs: seq<string>): (r: seq<string>)
    ensures |r| == |fs| && forall i :: 0 <= i < |fs| ==> r[i] == MonthOf(fs[i])
  {
    if fs == [] then [] else [MonthOf(fs[0])] + MonthsOf(fs[1..])
  }

  /** `s.slice(0, -1)`: everything but the last element, and nothing from nothing. */
  function DropLast<T>(s: seq<T>): (r: seq<T>)
    ensures |r| == if s == [] then 0 else |s| - 1
    ensures forall i :: 0 <= i < |r| ==> r[i] == s[i]
  {
    if s == [] then [] else s[..|s| - 1]
  }

  /** The month files of a listing, in listing order. */
  function MonthFiles(listing: seq<string>): seq<string> {
    Filter(listing, IsMonthFile)
  }

  /** The months whose file is listed, except the month of the last month file listed. */
  function DoneMonths(listing: seq<string>): seq<string> {
    DropLast(MonthsOf(MonthFiles(listing)))
  }

  /** The last element, if any. */
  function LastOf(s: seq<string>): Option<string> {
    if s == [] then None else Some(s[|s| - 1])
  }

  /** A month file is its month followed by `.txt`. */
  lemma MonthFileParts(f: string)
    ensures IsMonthFile(f) <==> |f| == 11 && DigitPattern(f[..7], MonthPattern) && f[7..] == ".txt"
  {
    DigitPatternConcat(f, MonthPattern, ".txt");
    if |f| >= 7 {
      DigitPatternLiteral(f[7..], ".txt");
    }
  }

  /** The month files are exactly the `YYYY-MM` names followed by `.txt`. */
  lemma MonthFileOf(f: string, m: string)
    requires f == m + ".txt"
    ensures IsMonthFile(f) <==> DigitPattern(m, MonthPattern)
    ensures IsMonthFile(f) ==> MonthOf(f) == m
  {
    MonthFileParts(f);
    assert f[..|m|] == m && f[|m|..] == ".txt";
    if DigitPattern(m, MonthPattern) {
      assert |m| == 7;
    }
  }

  /** A month file is the file of its month. */
  lemma MonthFileSplit(f: string)
    requires IsMonthFile(f)
    ensures f == MonthOf(f) + ".txt"
  {
    MonthFileParts(f);
    assert f == f[..7] + f[7..];
  }

  /** No month file is listed twice when no name is. */
  lemma MonthFilesNoRepeats(listing: seq<string>, i: nat)
    requires NoRepeats(listing) && i + 1 < |MonthFiles(listing)|
    ensures MonthFiles(listing)[i] != MonthFiles(listing)[|MonthFiles(listing)| - 1]
  {
    var files := MonthFiles(listing);
    forall x ensures multiset(files)[x] <= 1 {
      FilterCount(listing, IsMonthFile, x);
    }
    NoRepeatsApart(files, i, |files| - 1);
  }

  /** A done month has the `YYYY-MM` shape, its file is listed, and that file is not the last month file. */
  lemma DoneMonthsSound(listing: seq<string>, m: string)
    requires NoRepeats(listing) && m in DoneMonths(listing)
    ensures DigitPattern(m, MonthPattern) && m + ".txt" in listing && LastOf(MonthFiles(listing)) != Some(m + ".txt")
  {
    var files := MonthFiles(listing);
    var done := DoneMonths(listing);
    var i :| 0 <= i < |done| && done[i] == m;
    var g := files[i];
    assert g in files;
    MonthFileSplit(g);
    MonthFileOf(g, MonthOf(g));
    MonthFilesNoRepeats(listing, i);
  }

  /** A listed `YYYY-MM.txt` file that is not the last month file is done. */
  lemma DoneMonthsComplete(listing: seq<string>, m: string)
    requires DigitPattern(m, MonthPattern) && m + ".txt" in listing && LastOf(MonthFiles(listing)) != Some(m + ".txt")
    ensures m in DoneMonths(listing)
  {
    var files := MonthFiles(listing);
    var f := m + ".txt";
    MonthFileOf(f, m);
    assert f in files;
    var i :| 0 <= i < |files| && files[i] == f;
    assert i < |files| - 1;
    assert DoneMonths(listing)[i] == m;
  }

  /**
   * In a listing without repeats, a month is done exactly when it has the
   * `YYYY-MM` shape, its file is listed, and its file is not the last month
   * file listed.
   */
  lemma DoneMonthsSpec(listing: seq<string>, m: string)
    requires NoRepeats(listing)
    ensures m in DoneMonths(listing) <==>
      DigitPattern(m, MonthPattern) && m + ".txt" in listing && LastOf(MonthFiles(listing)) != Some(m + ".txt")
  {
    if m in DoneMonths(listing) {
      DoneMonthsSound(listing, m);
    }
    if DigitPattern(m, MonthPattern) && m + ".txt" in listing && LastOf(MonthFiles(listing)) != Some(m + ".txt") {
      DoneMonthsComplete(listing, m);
    }
  }

  /** The entries of `groups` whose month is not in `done`, in order. */
  function Without(groups: seq<MonthGroup>, done: seq<string>): seq<MonthGroup> {
    if groups == [] then []
    else (if groups[0].month in done then [] else [groups[0]]) + Without(groups[1..], done)
  }

  /** The entries kept are those whose month is not done. */
  lemma {:induction false} WithoutSpec(groups: seq<MonthGroup>, done: seq<string>)
    ensures forall g :: g in Without(groups, done) <==> g in groups && g.month !in done
  {
    if groups != [] {
      WithoutSpec(groups[1..], done);
      assert groups == [groups[0]] + groups[1..];
    }
  }

  /** Deleting one more month is leaving out one more month. */
  lemma {:induction false} WithoutOneMore(groups: seq<MonthGroup>, done: seq<string>, m: string)
    ensures Without(Without(groups, done), [m]) == Without(groups, done + [m])
  {
    if groups != [] {
      WithoutOneMore(groups[1..], done, m);
      var head := if groups[0].month in done then [] else [groups[0]];
      assert Without(groups, done) == head + Without(groups[1..], done);
      WithoutConcat(head, Without(groups[1..], done), [m]);
    }
  }

  lemma {:induction false} WithoutConcat(a: seq<MonthGroup>, b: seq<MonthGroup>, done: seq<string>)
    ensures Without(a + b, done) == Without(a, done) + Without(b, done)
  {
    if a != [] {
      WithoutConcat(a[1..], b, done);
      assert (a + b)[1..] == a[1..] + b;
      assert (a + b)[0] == a[0];
      var head := if a[0].month in done then [] else [a[0]];
      assert Without(a + b, done) == head + Without(a[1..] + b, done);
      assert Without(a, done) == head + Without(a[1..], done);
    } else {
      assert a + b == b;
    }
  }

  /** `.forEach(m => months.delete(m))`. */
  method DeleteMonths(months: seq<MonthGroup>, done: seq<string>) returns (r: seq<MonthGroup>)
    ensures r == Without(months, done)
  {
    r := months;
    WithoutNothing(months);
    for i := 0 to |done|
      invariant r == Without(months, done[..i])
    {
      WithoutOneMore(months, done[..i], done[i]);
      assert done[..i + 1] == done[..i] + [done[i]];
      r := Without(r, [done[i]]);
    }
    assert done[..|done|] == done;
  }

  lemma {:induction false} WithoutNothing(groups: seq<MonthGroup>)
    ensures Without(groups, []) == groups
  {
    if groups != [] {
      WithoutNothing(groups[1..]);
    }
  }

  // ---------------------------------------------------------------------
  // The lines of a month file

  /**
   * `getHours()`, `getMinutes()`, `getSeconds()`, each padded to two
   * digits, and `getMilliseconds()` padded to four, of `new Date(ts)` in
   * local time; `offset(ts)` is the local zone's offset at `ts` in
   * milliseconds. An invalid date shows `NaN` in every field.
   */
  function Timestamp(ts: int, offset: int -> int): string {
    if !ValidTime(ts) then "NaN:NaN:NaN.0NaN"
    else
      var t := (ts + offset(ts)) % MsPerDay;
      Pad2(t / 3600000) + ":" + Pad2(t % 3600000 / 60000) + ":" + Pad2(t % 60000 / 1000) + "." + PadStart(Decimal(t % 1000), 4, '0')
  }

  /** Leading zeros do not change the value of a numeral. */
  lemma {:induction false} LeadingZerosValue(k: nat, s: string)
    requires AllDigits(s)
    ensures AllDigits(Repeat('0', k) + s) && DigitsValue(Repeat('0', k) + s) == DigitsValue(s)
  {
    var z := Repeat('0', k);
    if s == [] {
      assert z + s == z;
      ZerosValue(k);
    } else {
      var init := s[..|s| - 1];
      LeadingZerosValue(k, init);
      assert (z + s)[..|z + s| - 1] == z + init;
    }
  }

  lemma {:induction false} ZerosValue(k: nat)
    ensures AllDigits(Repeat('0', k)) && DigitsValue(Repeat('0', k)) == 0
  {
    if k > 0 {
      ZerosValue(k - 1);
      assert Repeat('0', k)[..k - 1] == Repeat('0', k - 1);
    }
  }

  /** A value below 10000 padded to four places: four digits that read back as the value. */
  lemma Pad4Shape(n: nat)
    requires n < 10000
    ensures |PadStart(Decimal(n), 4, '0')| == 4 && AllDigits(PadStart(Decimal(n), 4, '0'))
    ensures DigitsValue(PadStart(Decimal(n), 4, '0')) == n
  {
    DecimalShape(n);
    DecimalRoundTrip(n);
    LeadingZerosValue(4 - |Decimal(n)|, Decimal(n));
  }

  /** The fields of the local time of day, in milliseconds. */
  lemma TimeOfDayFields(t: int)
    requires 0 <= t < MsPerDay
    ensures t / 3600000 < 24 && t % 3600000 / 60000 < 60 && t % 60000 / 1000 < 60 && t % 1000 < 1000
    ensures (t / 3600000) * 3600000 + (t % 3600000 / 60000) * 60000 + (t % 60000 / 1000) * 1000 + t % 1000 == t
  {
    HourRemainder(t);
    MinuteRemainder(t);
    assert t == (t / 3600000) * 3600000 + t % 3600000;
    assert t % 3600000 == (t % 3600000 / 60000) * 60000 + t % 60000;
    assert t % 60000 == (t % 60000 / 1000) * 1000 + t % 1000;
  }

  /** What is left of an hour, taken by the minute, leaves what is left of a minute. */
  lemma HourRemainder(t: int)
    requires t >= 0
    ensures t % 3600000 % 60000 == t % 60000
  {
  }

  /** What is left of a minute, taken by the second, leaves what is left of a second. */
  lemma MinuteRemainder(t: int)
    requires t >= 0
    ensures t % 60000 % 1000 == t % 1000
  {
  }

  /** Four fields printed as `hh:mm:ss.mmmm` read back as themselves. */
  lemma StampFields(h: nat, m: nat, sec: nat, ms: nat)
    requires h < 100 && m < 100 && sec < 100 && ms < 1000
    ensures var r := Pad2(h) + ":" + Pad2(m) + ":" + Pad2(sec) + "." + PadStart(Decimal(ms), 4, '0');
      && |r| == 13 && r[2] == ':' && r[5] == ':' && r[8] == '.' && r[9] == '0'
      && AllDigits(r[..2]) && AllDigits(r[3..5]) && AllDigits(r[6..8]) && AllDigits(r[9..])
      && DigitsValue(r[..2]) == h && DigitsValue(r[3..5]) == m && DigitsValue(r[6..8]) == sec && DigitsValue(r[9..]) == ms
  {
    Pad2Shape(h);
    Pad2Shape(m);
    Pad2Shape(sec);
    Pad4Shape(ms);
    var p := PadStart(Decimal(ms), 4, '0');
    var r := Pad2(h) + ":" + Pad2(m) + ":" + Pad2(sec) + "." + p;
    assert r[..2] == Pad2(h) && r[3..5] == Pad2(m) && r[6..8] == Pad2(sec) && r[9..] == p;
    assert p[0] == '0' by {
      DecimalShape(ms);
    }
  }

  /**
   * A valid timestamp is `hh:mm:ss.0mmm`: fields of digits, in range, that
   * add up to the local time of day.
   */
  lemma TimestampSpec(ts: int, offset: int -> int)
    requires ValidTime(ts)
    ensures var r := Timestamp(ts, offset);
      && |r| == 13 && r[2] == ':' && r[5] == ':' && r[8] == '.' && r[9] == '0'
      && AllDigits(r[..2]) && AllDigits(r[3..5]) && AllDigits(r[6..8]) && AllDigits(r[9..])
      && DigitsValue(r[..2]) < 24 && DigitsValue(r[3..5]) < 60 && DigitsValue(r[6..8]) < 60
      && DigitsValue(r[..2]) * 3600000 + DigitsValue(r[3..5]) * 60000 + DigitsValue(r[6..8]) * 1000 + DigitsValue(r[9..])
         == (ts + offset(ts)) % MsPerDay
  {
    var t := (ts + offset(ts)) % MsPerDay;
    TimeOfDayFields(t);
    StampFields(t / 3600000, t % 3600000 / 60000, t % 60000 / 1000, t % 1000);
  }

  /**
   * One message: `[time] <name>`, a line break, `/me ` for an emote, the
   * body and a blank line. A missing `content` throws a `TypeError`, and a
   * message type other than text or emote throws an `Error`.
   */
  function EventLine(e: Event, offset: int -> int): (r: Result<string, Thrown>)
    ensures r.Ok? <==> e.content.Content? && IsTextOrEmote(e.content.msgtype)
    ensures e.content.Undefined? ==> r == Err(TypeError("msgtype"))
    ensures e.content.Content? && !IsTextOrEmote(e.content.msgtype) ==>
      r == Err(Error("unknown event message type " + Shown(e.content.msgtype)))
  {
    if e.content.Undefined? then Err(TypeError("msgtype"))
    else if !IsTextOrEmote(e.content.msgtype) then
      Err(Error("unknown event message type " + Shown(e.content.msgtype)))
    else
      Ok("[" + Timestamp(e.ts, offset) + "] <" + ShortName(e.senderName) + ">\n"
        + (if e.content.msgtype == Some(EmoteType) then "/me " else "") + e.content.body + "\n\n")
  }

  /** The header pushed before a day's lines: a blank line first unless it is the month's first day. */
  function Header(day: string, first: bool): string {
    (if first then "" else "\n") + day + "\n"
  }

  /** The lines of a day's events, or the first throw. */
  function EventLines(events: seq<Event>, offset: int -> int): Result<seq<string>, Thrown> {
    MapUpTo((e, i) => EventLine(e, offset), events, |events|)
  }

  /** What one day adds to a month: its header, then its lines; or the first throw among its events. */
  function DaySection(room: string, day: string, first: bool, read: (string, string) -> seq<Event>, offset: int -> int)
    : Result<seq<string>, Thrown>
  {
    var lines :- EventLines(read(room, day), offset);
    Ok([Header(day, first)] + lines)
  }

  /** The section of every day of a month, in order; only the first has no blank line before its header. */
  function Sections(room: string, days: seq<string>, read: (string, string) -> seq<Event>, offset: int -> int)
    : (s: seq<Result<seq<string>, Thrown>>)
    ensures |s| == |days|
    ensures forall i :: 0 <= i < |days| ==> s[i] == DaySection(room, days[i], i == 0, read, offset)
  {
    seq(|days|, i requires 0 <= i < |days| => DaySection(room, days[i], i == 0, read, offset))
  }

  /** The pieces pushed for the first `n` sections: each in turn, stopping at the first throw. */
  function Chunks(sections: seq<Result<seq<string>, Thrown>>, n: nat): Result<seq<string>, Thrown>
    requires n <= |sections|
  {
    if n == 0 then Ok([])
    else
      var chunks :- Chunks(sections, n - 1);
      var section :- sections[n - 1];
      Ok(chunks + section)
  }

  /** `contents.join('')`. */
  function Concat(parts: seq<string>): string {
    if parts == [] then "" else Concat(parts[..|parts| - 1]) + parts[|parts| - 1]
  }

  /** Once a throw ends the month, later days change nothing. */
  lemma {:induction false} ChunksSettled(sections: seq<Result<seq<string>, Thrown>>, n: nat, m: nat)
    requires n <= m <= |sections| && Chunks(sections, n).Err?
    ensures Chunks(sections, m) == Chunks(sections, n)
  {
    if m > n {
      ChunksSettled(sections, n, m - 1);
    }
  }

  /** Once `f` throws, later elements change nothing. */
  lemma {:induction false} MapUpToSettled<T, U>(f: (T, nat) -> Result<U, Thrown>, xs: seq<T>, n: nat, m: nat)
    requires n <= m <= |xs| && MapUpTo(f, xs, n).Err?
    ensures MapUpTo(f, xs, m) == MapUpTo(f, xs, n)
  {
    if m > n {
      MapUpToSettled(f, xs, n, m - 1);
    }
  }

  /** The text of a month file, or what rendering one of its messages threw. */
  function MonthText(room: string, days: seq<string>, read: (string, string) -> seq<Event>, offset: int -> int)
    : Result<string, Thrown>
  {
    var chunks :- Chunks(Sections(room, days, read, offset), |days|);
    Ok(Concat(chunks))
  }

  /** The inner loop over a day's events, pushing each line after what `contents` holds. */
  method PushLines(contents: seq<string>, events: seq<Event>, offset: int -> int) returns (r: Result<seq<string>, Thrown>)
    ensures EventLines(events, offset).Ok? ==> r == Ok(contents + EventLines(events, offset).value)
    ensures EventLines(events, offset).Err? ==> r == Err(EventLines(events, offset).error)
  {
    r := PushEach(contents, events, (e, i) => EventLine(e, offset));
  }

  /** Pushes `f` of each element after what `contents` holds, stopping at the first throw. */
  method PushEach<T>(contents: seq<string>, xs: seq<T>, f: (T, nat) -> Result<string, Thrown>) returns (r: Result<seq<string>, Thrown>)
    ensures MapUpTo(f, xs, |xs|).Ok? ==> r == Ok(contents + MapUpTo(f, xs, |xs|).value)
    ensures MapUpTo(f, xs, |xs|).Err? ==> r == Err(MapUpTo(f, xs, |xs|).error)
  {
    var pushed := contents;
    assert pushed[|contents|..] == [];
    for k := 0 to |xs|
      invariant |contents| <= |pushed| && pushed[..|contents|] == contents
      invariant MapUpTo(f, xs, k) == Ok(pushed[|contents|..])
    {
      var line := f(xs[k], k);
      if line.Err? {
        MapUpToSettled(f, xs, k + 1, |xs|);
        return Err(line.error);
      }
      ghost var lines := pushed[|contents|..];
      pushed := pushed + [line.value];
      assert pushed[|contents|..] == lines + [line.value];
    }
    assert pushed == contents + pushed[|contents|..];
    return Ok(pushed);
  }

  /** One pass of the loop over a month's days: the day's header, then its lines, after what `contents` holds. */
  method PushDay(contents: seq<string>, room: string, day: string, read: (string, string) -> seq<Event>, offset: int -> int)
    returns (r: Result<seq<string>, Thrown>)
    ensures var section := DaySection(room, day, contents == [], read, offset);
      r == if section.Ok? then Ok(contents + section.value) else Err(section.error)
  {
    var header := (if |contents| == 0 then "" else "\n") + day + "\n";
    r := PushLines(contents + [header], read(room, day), offset);
    PushedSection(contents, header, EventLines(read(room, day), offset), r);
  }

  /** Pushing a header and then the lines after `contents` pushes the section they make. */
  lemma PushedSection(contents: seq<string>, header: string, lines: Result<seq<string>, Thrown>, r: Result<seq<string>, Thrown>)
    requires lines.Ok? ==> r == Ok(contents + [header] + lines.value)
    requires lines.Err? ==> r == Err(lines.error)
    ensures r == if lines.Ok? then Ok(contents + ([header] + lines.value)) else Err(lines.error)
  {
    if lines.Ok? {
      assert contents + [header] + lines.value == contents + ([header] + lines.value);
    }
  }

  /** The loop over one month's days, building the month file. */
  method RenderMonth(room: string, days: seq<string>, read: (string, string) -> seq<Event>, offset: int -> int)
    returns (r: Result<string, Thrown>)
    ensures r == MonthText(room, days, read, offset)
  {
    ghost var sections := Sections(room, days, read, offset);
    var contents: seq<string> := [];
    for j := 0 to |days|
      invariant Chunks(sections, j) == Ok(contents)
      invariant j == 0 <==> contents == []
    {
      var pushed := PushDay(contents, room, days[j], read, offset);
      assert sections[j] == DaySection(room, days[j], contents == [], read, offset);
      if pushed.Err? {
        ChunksSettled(sections, j + 1, |days|);
        return Err(pushed.error);
      }
      contents := pushed.value;
    }
    return Ok(Concat(contents));
  }

  // ---------------------------------------------------------------------
  // The layout of a month file

  /** Section `k`, among the first `n`, is the first that throws. */
  predicate FirstThrow(sections: seq<Result<seq<string>, Thrown>>, k: nat, n: nat)
    requires n <= |sections|
  {
    && k < n && sections[k].Err?
    && forall i :: 0 <= i < k ==> sections[i].Ok?
  }

  /**
   * The pieces are the sections one after another: the fold succeeds
   * exactly when every section does, ends with the first throw otherwise,
   * and only grows from one day to the next.
   */
  lemma {:induction false} ChunksSpec(sections: seq<Result<seq<string>, Thrown>>, n: nat)
    requires n <= |sections|
    ensures var r := Chunks(sections, n);
      && (r.Ok? <==> forall i :: 0 <= i < n ==> sections[i].Ok?)
      && (r.Err? ==> exists k: nat :: FirstThrow(sections, k, n) && r.error == sections[k].error)
      && (r.Ok? ==> forall m :: 0 <= m <= n ==> Chunks(sections, m).Ok? && Chunks(sections, m).value <= r.value)
  {
    if n > 0 {
      ChunksSpec(sections, n - 1);
      var prev := Chunks(sections, n - 1);
      if prev.Err? {
        var k: nat :| FirstThrow(sections, k, n - 1) && prev.error == sections[k].error;
        assert FirstThrow(sections, k, n);
      } else if sections[n - 1].Err? {
        assert FirstThrow(sections, n - 1, n);
      }
    }
  }

  /** `join('')` of more pieces is the join of the first ones followed by the join of the rest. */
  lemma {:induction false} ConcatAppend(a: seq<string>, b: seq<string>)
    ensures Concat(a + b) == Concat(a) + Concat(b)
  {
    if b == [] {
      assert a + b == a;
    } else {
      var init := b[..|b| - 1];
      ConcatAppend(a, init);
      assert (a + b)[..|a + b| - 1] == a + init;
      assert b[..|b| - 1] == init;
    }
  }

  /** The text opens with the first piece and closes with the last character of the last piece. */
  lemma ConcatEnds(parts: seq<string>)
    requires parts != []
    ensures parts[0] <= Concat(parts)
    ensures parts[|parts| - 1] != [] ==> |Concat(parts)| > 0 && Concat(parts)[|Concat(parts)| - 1] == parts[|parts| - 1][|parts[|parts| - 1]| - 1]
  {
    ConcatAppend([parts[0]], parts[1..]);
    assert [parts[0]] + parts[1..] == parts;
    assert Concat([parts[0]]) == Concat([]) + parts[0];
  }

  /** Every line of a message opens with the bracket of its time and ends with a blank line. */
  lemma EventLineLayout(e: Event, offset: int -> int)
    requires EventLine(e, offset).Ok?
    ensures var line := EventLine(e, offset).value;
      && |line| >= 2 && line[0] == '[' && line[|line| - 2..] == "\n\n"
  {
    var head := "[" + Timestamp(e.ts, offset) + "] <" + ShortName(e.senderName) + ">\n"
      + (if e.content.msgtype == Some(EmoteType) then "/me " else "") + e.content.body;
    var line := head + "\n\n";
    assert EventLine(e, offset).value == line;
    assert head[0] == '[';
    assert line[|head|..] == "\n\n";
  }

  /**
   * A message's line holds, in order: its time in brackets, its sender's
   * short name in angle brackets and a newline, `/me ` exactly for an
   * emote, its body, and a blank line.
   */
  lemma EventLineFields(e: Event, offset: int -> int)
    requires EventLine(e, offset).Ok?
    ensures var line := EventLine(e, offset).value;
      var head := "[" + Timestamp(e.ts, offset) + "] <" + ShortName(e.senderName) + ">\n";
      var emote := e.content.msgtype == Some(EmoteType);
      && StartsWith(line, head) && EndsWith(line, e.content.body + "\n\n")
      && |line| == |head| + (if emote then 4 else 0) + |e.content.body| + 2
      && (emote ==> line[|head|..|head| + 4] == "/me ")
  {
    var head := "[" + Timestamp(e.ts, offset) + "] <" + ShortName(e.senderName) + ">\n";
    var me := if e.content.msgtype == Some(EmoteType) then "/me " else "";
    var tail := e.content.body + "\n\n";
    var line := head + me + tail;
    assert EventLine(e, offset).value == line;
    assert line[..|head|] == head;
    assert line[|head|..|head| + |me|] == me;
    assert line[|line| - |tail|..] == tail;
  }

  /** Day `k` of a month is the first whose events throw. */
  predicate FirstBadDay(room: string, days: seq<string>, read: (string, string) -> seq<Event>, offset: int -> int, k: nat) {
    && k < |days| && EventLines(read(room, days[k]), offset).Err?
    && forall i :: 0 <= i < k ==> EventLines(read(room, days[i]), offset).Ok?
  }

  /** A day's section opens with its header, and its last piece ends with a line break. */
  lemma DaySectionLayout(room: string, day: string, first: bool, read: (string, string) -> seq<Event>, offset: int -> int)
    requires DaySection(room, day, first, read, offset).Ok?
    ensures var s := DaySection(room, day, first, read, offset).value;
      && |s| > 0 && s[0] == Header(day, first)
      && |s[|s| - 1]| > 0 && s[|s| - 1][|s[|s| - 1]| - 1] == '\n'
  {
    var events := read(room, day);
    var lines := EventLines(events, offset).value;
    var s := [Header(day, first)] + lines;
    assert DaySection(room, day, first, read, offset).value == s;
    if lines == [] {
      var h := Header(day, first);
      assert h == ((if first then "" else "\n") + day) + "\n";
      assert h[|h| - 1] == '\n';
    } else {
      MapUpToSpec((e, i) => EventLine(e, offset), events, |events|);
      assert s[|s| - 1] == EventLine(events[|events| - 1], offset).value;
      EventLineLayout(events[|events| - 1], offset);
    }
  }

  /** Once every section has pieces, the pieces open with the first section's and close with the last one's. */
  lemma {:induction false} ChunksEnds(sections: seq<Result<seq<string>, Thrown>>, n: nat)
    requires 0 < n <= |sections| && Chunks(sections, n).Ok?
    requires forall i :: 0 <= i < n ==> sections[i].Ok? && sections[i].value != []
    ensures var c := Chunks(sections, n).value;
      && c != [] && c[0] == sections[0].value[0]
      && c[|c| - 1] == sections[n - 1].value[|sections[n - 1].value| - 1]
  {
    if n > 1 {
      ChunksEnds(sections, n - 1);
    }
  }

  /**
   * A month file is written when every message of every day renders, and
   * the first message that does not throws its error.
   */
  lemma MonthTextSpec(room: string, days: seq<string>, read: (string, string) -> seq<Event>, offset: int -> int)
    ensures var r := MonthText(room, days, read, offset);
      && (r.Ok? <==> forall i :: 0 <= i < |days| ==> EventLines(read(room, days[i]), offset).Ok?)
      && (r.Err? ==> exists k: nat :: FirstBadDay(room, days, read, offset, k) && r.error == EventLines(read(room, days[k]), offset).error)
  {
    var sections := Sections(room, days, read, offset);
    var r := MonthText(room, days, read, offset);
    ChunksSpec(sections, |days|);
    assert forall i :: 0 <= i < |days| ==> (sections[i].Ok? <==> EventLines(read(room, days[i]), offset).Ok?);
    if r.Err? {
      var k: nat :| FirstThrow(sections, k, |days|) && r.error == sections[k].error;
      assert FirstBadDay(room, days, read, offset, k);
    }
  }

  /**
   * A month file opens with its first day's name on a line of its own,
   * with no blank line before it, and ends with a line break.
   */
  lemma MonthTextLayout(room: string, days: seq<string>, read: (string, string) -> seq<Event>, offset: int -> int)
    requires days != [] && MonthText(room, days, read, offset).Ok?
    ensures var text := MonthText(room, days, read, offset).value;
      && days[0] + "\n" <= text && text[|text| - 1] == '\n'
  {
    var sections := Sections(room, days, read, offset);
    var n := |days|;
    ChunksSpec(sections, n);
    forall i | 0 <= i < n ensures sections[i].Ok? && sections[i].value != [] {
      DaySectionLayout(room, days[i], i == 0, read, offset);
    }
    ChunksEnds(sections, n);
    var chunks := Chunks(sections, n).value;
    DaySectionLayout(room, days[0], true, read, offset);
    DaySectionLayout(room, days[n - 1], n - 1 == 0, read, offset);
    assert Header(days[0], true) == days[0] + "\n";
    ConcatEnds(chunks);
  }

  // ---------------------------------------------------------------------
  // Rooms and the whole run

  /** A written file: a month's text, or a room's index page (whose markup is not modelled). */
  datatype TxtPage = MonthFile(text: string) | RoomIndex(room: string)

  /** A file written under `logs/docs`. */
  datatype TxtWrite = TxtWrite(dir: string, file: string, page: TxtPage)

  /** The files written so far, and the exception that ended the script, if any. */
  datatype TxtRun = TxtRun(writes: seq<TxtWrite>, thrown: Option<Thrown>)

  /**
   * What the script reads: the room directory names under `logs/json`,
   * each room's listing there, each plain-text directory's listing as it
   * was before the run, and the parsed events of a day file of a room.
   */
  datatype TxtDisk = TxtDisk(
    roomNames: seq<string>,
    jsonListing: string -> seq<string>,
    txtListing: string -> seq<string>,
    read: (string, string) -> seq<Event>)

  /** `logs/docs/<room>/plaintext`, relative to `logs/docs`. */
  function PlainDir(room: string): string {
    SanitizeRoomName(room) + "/plaintext"
  }

  /** The first `n` steps one after another: each adds its writes, and the first throw ends the script. */
  function Performed(steps: seq<TxtRun>, n: nat): TxtRun
    requires n <= |steps|
  {
    if n == 0 then TxtRun([], None)
    else
      var r := Performed(steps, n - 1);
      if r.thrown.Some? then r else TxtRun(r.writes + steps[n - 1].writes, steps[n - 1].thrown)
  }

  /** Step `k`, among the first `n`, is the first that throws. */
  predicate ThrowsFirst(steps: seq<TxtRun>, k: nat, n: nat)
    requires n <= |steps|
  {
    && k < n && steps[k].thrown.Some?
    && forall i :: 0 <= i < k ==> steps[i].thrown.None?
  }

  /** One of the first `n` steps writes `w`. */
  predicate WrittenBy(steps: seq<TxtRun>, n: nat, w: TxtWrite)
    requires n <= |steps|
  {
    exists i :: 0 <= i < n && w in steps[i].writes
  }

  /**
   * The steps run until the first throw: the run throws exactly when some
   * step does, and then it is the run up to the first such step; every
   * write comes from a step, and without a throw every step's writes are made.
   */
  lemma {:induction false} PerformedSpec(steps: seq<TxtRun>, n: nat)
    requires n <= |steps|
    ensures var r := Performed(steps, n);
      && (r.thrown.None? <==> forall i :: 0 <= i < n ==> steps[i].thrown.None?)
      && (r.thrown.Some? ==> exists k: nat :: ThrowsFirst(steps, k, n) && r.thrown == steps[k].thrown && r == Performed(steps, k + 1))
      && (forall w :: w in r.writes ==> WrittenBy(steps, n, w))
      && (r.thrown.None? ==> forall w :: WrittenBy(steps, n, w) ==> w in r.writes)
  {
    if n > 0 {
      PerformedSpec(steps, n - 1);
      var prev := Performed(steps, n - 1);
      var r := Performed(steps, n);
      forall w | WrittenBy(steps, n - 1, w) ensures WrittenBy(steps, n, w) {
        var i :| 0 <= i < n - 1 && w in steps[i].writes;
      }
      if prev.thrown.Some? {
        var k: nat :| ThrowsFirst(steps, k, n - 1) && prev.thrown == steps[k].thrown && prev == Performed(steps, k + 1);
        assert ThrowsFirst(steps, k, n);
      } else {
        if steps[n - 1].thrown.Some? {
          assert ThrowsFirst(steps, n - 1, n);
        }
        forall w | w in steps[n - 1].writes ensures WrittenBy(steps, n, w) {
        }
        forall w | WrittenBy(steps, n, w) ensures w in r.writes {
          var i :| 0 <= i < n && w in steps[i].writes;
          if i < n - 1 {
            assert WrittenBy(steps, n - 1, w);
          }
        }
      }
    }
  }

  /** Once a step throws, later steps change nothing. */
  lemma {:induction false} PerformedSettled(steps: seq<TxtRun>, n: nat, m: nat)
    requires n <= m <= |steps| && Performed(steps, n).thrown.Some?
    ensures Performed(steps, m) == Performed(steps, n)
  {
    if m > n {
      PerformedSettled(steps, n, m - 1);
    }
  }

  /** The file of a month in a room's plain-text directory. */
  function MonthWrite(room: string, month: string, text: string): TxtWrite {
    TxtWrite(PlainDir(room), month + ".txt", MonthFile(text))
  }

  /** The index page of a room's plain-text directory. */
  function IndexWrite(room: string): TxtWrite {
    TxtWrite(PlainDir(room), "index.html", RoomIndex(room))
  }

  /** Rendering and writing one month's file. */
  function MonthStep(room: string, g: MonthGroup, read: (string, string) -> seq<Event>, offset: int -> int): TxtRun {
    match MonthText(room, g.days, read, offset)
    case Ok(text) => TxtRun([MonthWrite(room, g.month, text)], None)
    case Err(e) => TxtRun([], Some(e))
  }

  /** The step of each month, in the order of the map. */
  function MonthSteps(room: string, groups: seq<MonthGroup>, read: (string, string) -> seq<Event>, offset: int -> int)
    : (s: seq<TxtRun>)
    ensures |s| == |groups|
    ensures forall i :: 0 <= i < |groups| ==> s[i] == MonthStep(room, groups[i], read, offset)
  {
    seq(|groups|, i requires 0 <= i < |groups| => MonthStep(room, groups[i], read, offset))
  }

  /** A room: its months' files in turn, then its index page unless a month threw. */
  function RoomWith(room: string, steps: seq<TxtRun>): TxtRun {
    var r := Performed(steps, |steps|);
    if r.thrown.Some? then r
    else TxtRun(r.writes + [IndexWrite(room)], None)
  }

  /** A room whose days are `days` and whose done months are `done`. */
  function RoomOf(room: string, days: seq<string>, done: seq<string>, read: (string, string) -> seq<Event>, offset: int -> int)
    : TxtRun
  {
    RoomWith(room, MonthSteps(room, Without(Grouped(days), done), read, offset))
  }

  /** A room as the script finds it on disk. */
  function Room(disk: TxtDisk, offset: int -> int, room: string): TxtRun {
    RoomOf(room, DayNames(disk.jsonListing(room), ".json"), DoneMonths(disk.txtListing(PlainDir(room))), disk.read, offset)
  }

  /** The run of each room of `rooms`, in order. */
  function RoomRuns(disk: TxtDisk, offset: int -> int, rooms: seq<string>): (runs: seq<TxtRun>)
    ensures |runs| == |rooms|
  {
    if rooms == [] then []
    else RoomRuns(disk, offset, rooms[..|rooms| - 1]) + [Room(disk, offset, rooms[|rooms| - 1])]
  }

  lemma {:induction false} RoomRunsAt(disk: TxtDisk, offset: int -> int, rooms: seq<string>, k: nat)
    requires k < |rooms|
    ensures RoomRuns(disk, offset, rooms)[k] == Room(disk, offset, rooms[k])
  {
    if k < |rooms| - 1 {
      RoomRunsAt(disk, offset, rooms[..|rooms| - 1], k);
    }
  }

  /** `runs` holds the run of each room of `rooms`, in order. */
  ghost predicate RoomsAre(disk: TxtDisk, offset: int -> int, rooms: seq<string>, runs: seq<TxtRun>) {
    && |runs| == |rooms|
    && forall k {:trigger rooms[k]} :: 0 <= k < |rooms| ==> runs[k] == Room(disk, offset, rooms[k])
  }

  lemma RoomRunsAre(disk: TxtDisk, offset: int -> int, rooms: seq<string>)
    ensures RoomsAre(disk, offset, rooms, RoomRuns(disk, offset, rooms))
  {
    forall k | 0 <= k < |rooms| {
      RoomRunsAt(disk, offset, rooms, k);
    }
  }

  /** The whole run: every room in sorted order, until the first throw. */
  function Site(disk: TxtDisk, offset: int -> int): TxtRun {
    var rooms := Sort(disk.roomNames);
    Performed(RoomRuns(disk, offset, rooms), |rooms|)
  }

  /** One pass of the loop over a room's months: rendering the month and writing its file. */
  method RenderMonthFile(room: string, g: MonthGroup, read: (string, string) -> seq<Event>, offset: int -> int)
    returns (step: TxtRun)
    ensures step == MonthStep(room, g, read, offset)
  {
    var text := RenderMonth(room, g.days, read, offset);
    if text.Err? {
      return TxtRun([], Some(text.error));
    }
    return TxtRun([MonthWrite(room, g.month, text.value)], None);
  }

  /** `steps` holds the step of each month of `months`, in order. */
  ghost predicate StepsAre(room: string, months: seq<MonthGroup>, read: (string, string) -> seq<Event>, offset: int -> int, steps: seq<TxtRun>) {
    && |steps| == |months|
    && forall i {:trigger months[i]} :: 0 <= i < |months| ==> steps[i] == MonthStep(room, months[i], read, offset)
  }

  /** One pass of the loop over a room's months, after the first `i` months wrote `writes`. */
  method MonthFileStep(room: string, months: seq<MonthGroup>, ghost steps: seq<TxtRun>, read: (string, string) -> seq<Event>, offset: int -> int, i: nat, writes: seq<TxtWrite>)
    returns (o: TxtRun)
    requires i < |months| && StepsAre(room, months, read, offset, steps)
    requires Performed(steps, i) == TxtRun(writes, None)
    ensures o == Performed(steps, i + 1)
  {
    var step := RenderMonthFile(room, months[i], read, offset);
    o := TxtRun(writes + step.writes, step.thrown);
  }

  /** The loop over a room's remaining months, until the first throw. */
  method RenderMonthFiles(room: string, months: seq<MonthGroup>, ghost steps: seq<TxtRun>, read: (string, string) -> seq<Event>, offset: int -> int)
    returns (r: TxtRun)
    requires StepsAre(room, months, read, offset, steps)
    ensures r == Performed(steps, |months|)
  {
    var writes: seq<TxtWrite> := [];
    for i := 0 to |months|
      invariant Performed(steps, i) == TxtRun(writes, None)
    {
      r := MonthFileStep(room, months, steps, read, offset, i, writes);
      if r.thrown.Some? {
        PerformedSettled(steps, i + 1, |months|);
        return;
      }
      writes := r.writes;
    }
    r := TxtRun(writes, None);
  }

  /** A room's remaining months, then its index page unless a month threw. */
  method RenderMonths(room: string, months: seq<MonthGroup>, read: (string, string) -> seq<Event>, offset: int -> int)
    returns (r: TxtRun)
    ensures r == RoomWith(room, MonthSteps(room, months, read, offset))
  {
    r := RenderMonthFiles(room, months, MonthSteps(room, months, read, offset), read, offset);
    if r.thrown.None? {
      r := TxtRun(r.writes + [IndexWrite(room)], None);
    }
  }

  /** One pass of the loop over the rooms: grouping the days, deleting the done months, rendering the rest. */
  method RenderRoom(disk: TxtDisk, offset: int -> int, room: string) returns (r: TxtRun)
    ensures r == Room(disk, offset, room)
  {
    var days := DayNames(disk.jsonListing(room), ".json");
    var done := DoneMonths(disk.txtListing(SanitizeRoomName(room) + "/plaintext"));
    assert Room(disk, offset, room) == RoomOf(room, days, done, disk.read, offset);
    var months := GroupByMonth(days);
    months := DeleteMonths(months, done);
    r := RenderMonths(room, months, disk.read, offset);
  }

  /** One pass of the loop over the rooms, after the first `k` rooms wrote `writes`. */
  method RoomStep(disk: TxtDisk, offset: int -> int, rooms: seq<string>, ghost runs: seq<TxtRun>, k: nat, writes: seq<TxtWrite>)
    returns (o: TxtRun)
    requires k < |rooms| && RoomsAre(disk, offset, rooms, runs)
    requires Performed(runs, k) == TxtRun(writes, None)
    ensures o == Performed(runs, k + 1)
  {
    var room := RenderRoom(disk, offset, rooms[k]);
    o := TxtRun(writes + room.writes, room.thrown);
  }

  /** The loop over the rooms, until the first throw. */
  method RenderRooms(disk: TxtDisk, offset: int -> int, rooms: seq<string>, ghost runs: seq<TxtRun>) returns (r: TxtRun)
    requires RoomsAre(disk, offset, rooms, runs)
    ensures r == Performed(runs, |rooms|)
  {
    var writes: seq<TxtWrite> := [];
    for k := 0 to |rooms|
      invariant Performed(runs, k) == TxtRun(writes, None)
    {
      r := RoomStep(disk, offset, rooms, runs, k, writes);
      if r.thrown.Some? {
        PerformedSettled(runs, k + 1, |rooms|);
        return;
      }
      writes := r.writes;
    }
    r := TxtRun(writes, None);
  }

  /** The script: the rooms in sorted order. */
  method RenderSite(disk: TxtDisk, offset: int -> int) returns (r: TxtRun)
    ensures r == Site(disk, offset)
  {
    var rooms := Sort(disk.roomNames);
    RoomRunsAre(disk, offset, rooms);
    r := RenderRooms(disk, offset, rooms, RoomRuns(disk, offset, rooms));
  }

  // ---------------------------------------------------------------------
  // What a room's run writes

  /** The entries of the map are exactly the months with a day, each holding exactly that month's days. */
  lemma GroupedEntry(days: seq<string>, g: MonthGroup)
    ensures g in Grouped(days) <==> HasMonth(days, g.month) && g.days == DaysOfMonth(days, g.month)
  {
    var gs := Grouped(days);
    var ms := FirstMonths(days);
    FirstMonthsSpec(days);
    if g in gs {
      var i :| 0 <= i < |gs| && gs[i] == g;
      assert ms[i] in ms;
    }
    if HasMonth(days, g.month) && g.days == DaysOfMonth(days, g.month) {
      var i :| 0 <= i < |ms| && ms[i] == g.month;
      assert gs[i] == g;
    }
  }

  /** Different months have different file names. */
  lemma MonthWriteNames(room: string, m: string, t: string, m': string, t': string)
    ensures MonthWrite(room, m, t) == MonthWrite(room, m', t') <==> m == m' && t == t'
    ensures MonthWrite(room, m, t) != IndexWrite(room)
  {
    var f := m + ".txt";
    var f' := m' + ".txt";
    if f == f' {
      assert |m| == |m'|;
      assert m == f[..|m|] && m' == f'[..|m'|];
    }
    assert f[|f| - 1] == 't';
    assert "index.html"[9] == 'l';
  }

  /** A month's step writes its file when its text renders, and throws what rendering it threw otherwise. */
  lemma MonthStepsWrite(room: string, groups: seq<MonthGroup>, read: (string, string) -> seq<Event>, offset: int -> int, m: string, t: string)
    ensures var steps := MonthSteps(room, groups, read, offset);
      WrittenBy(steps, |steps|, MonthWrite(room, m, t)) <==>
        exists g :: g in groups && g.month == m && MonthText(room, g.days, read, offset) == Ok(t)
  {
    var steps := MonthSteps(room, groups, read, offset);
    var w := MonthWrite(room, m, t);
    if WrittenBy(steps, |steps|, w) {
      var i :| 0 <= i < |steps| && w in steps[i].writes;
      var g := groups[i];
      var text := MonthText(room, g.days, read, offset);
      assert text.Ok? && w == MonthWrite(room, g.month, text.value);
      MonthWriteNames(room, m, t, g.month, text.value);
      assert g in groups;
    }
    if exists g :: g in groups && g.month == m && MonthText(room, g.days, read, offset) == Ok(t) {
      var g :| g in groups && g.month == m && MonthText(room, g.days, read, offset) == Ok(t);
      var i :| 0 <= i < |groups| && groups[i] == g;
      assert w in steps[i].writes;
    }
  }

  /** The month `m` is rendered for a room: some day is in it and it is not done. */
  predicate Rendered(days: seq<string>, done: seq<string>, m: string) {
    HasMonth(days, m) && m !in done
  }

  /**
   * A room throws exactly when the text of one of its rendered months
   * throws, and then throws what that month threw.
   */
  lemma RoomOfThrows(room: string, days: seq<string>, done: seq<string>, read: (string, string) -> seq<Event>, offset: int -> int)
    ensures var r := RoomOf(room, days, done, read, offset);
      && (r.thrown.None? <==> forall m :: Rendered(days, done, m) ==> MonthText(room, DaysOfMonth(days, m), read, offset).Ok?)
      && (r.thrown.Some? ==> exists m :: Rendered(days, done, m) && MonthText(room, DaysOfMonth(days, m), read, offset) == Err(r.thrown.value))
  {
    MonthThrowReachesRoom(room, days, done, read, offset);
    RoomThrowFromMonth(room, days, done, read, offset);
  }

  /** A rendered month whose text throws makes the room throw. */
  lemma MonthThrowReachesRoom(room: string, days: seq<string>, done: seq<string>, read: (string, string) -> seq<Event>, offset: int -> int)
    ensures forall m :: Rendered(days, done, m) && MonthText(room, DaysOfMonth(days, m), read, offset).Err? ==>
      RoomOf(room, days, done, read, offset).thrown.Some?
  {
    var groups := Without(Grouped(days), done);
    var steps := MonthSteps(room, groups, read, offset);
    PerformedSpec(steps, |steps|);
    WithoutSpec(Grouped(days), done);
    forall m | Rendered(days, done, m) && MonthText(room, DaysOfMonth(days, m), read, offset).Err?
      ensures RoomOf(room, days, done, read, offset).thrown.Some?
    {
      var g := MonthGroup(m, DaysOfMonth(days, m));
      GroupedEntry(days, g);
      var i :| 0 <= i < |groups| && groups[i] == g;
      assert steps[i].thrown.Some?;
    }
  }

  /** What a room throws is what the text of one of its rendered months threw. */
  lemma RoomThrowFromMonth(room: string, days: seq<string>, done: seq<string>, read: (string, string) -> seq<Event>, offset: int -> int)
    ensures var r := RoomOf(room, days, done, read, offset);
      r.thrown.Some? ==> exists m :: Rendered(days, done, m) && MonthText(room, DaysOfMonth(days, m), read, offset) == Err(r.thrown.value)
  {
    var groups := Without(Grouped(days), done);
    var steps := MonthSteps(room, groups, read, offset);
    var r := RoomOf(room, days, done, read, offset);
    PerformedSpec(steps, |steps|);
    WithoutSpec(Grouped(days), done);
    if r.thrown.Some? {
      var k: nat :| ThrowsFirst(steps, k, |steps|) && r.thrown == steps[k].thrown && Performed(steps, |steps|) == Performed(steps, k + 1);
      var g := groups[k];
      assert g in groups;
      GroupedEntry(days, g);
      assert Rendered(days, done, g.month) && MonthText(room, DaysOfMonth(days, g.month), read, offset) == Err(r.thrown.value);
    }
  }

  /**
   * Without a throw, a room writes the file of a month exactly when the
   * month is rendered, holding the text of exactly that month's days, and
   * its index page last.
   */
  lemma RoomOfWrites(room: string, days: seq<string>, done: seq<string>, read: (string, string) -> seq<Event>, offset: int -> int, m: string, t: string)
    requires RoomOf(room, days, done, read, offset).thrown.None?
    ensures var r := RoomOf(room, days, done, read, offset);
      && (MonthWrite(room, m, t) in r.writes <==> Rendered(days, done, m) && MonthText(room, DaysOfMonth(days, m), read, offset) == Ok(t))
      && |r.writes| > 0 && r.writes[|r.writes| - 1] == IndexWrite(room)
  {
    var groups := Without(Grouped(days), done);
    var steps := MonthSteps(room, groups, read, offset);
    var r := RoomOf(room, days, done, read, offset);
    var w := MonthWrite(room, m, t);
    PerformedSpec(steps, |steps|);
    var p := Performed(steps, |steps|);
    assert r.writes == p.writes + [IndexWrite(room)];
    MonthWriteNames(room, m, t, m, t);
    assert w in r.writes <==> w in p.writes;
    MonthStepsWrite(room, groups, read, offset, m, t);
    WithoutSpec(Grouped(days), done);
    var g := MonthGroup(m, DaysOfMonth(days, m));
    GroupedEntry(days, g);
    if exists g' :: g' in groups && g'.month == m && MonthText(room, g'.days, read, offset) == Ok(t) {
      var g' :| g' in groups && g'.month == m && MonthText(room, g'.days, read, offset) == Ok(t);
      GroupedEntry(days, g');
    }
    if Rendered(days, done, m) && MonthText(room, DaysOfMonth(days, m), read, offset) == Ok(t) {
      assert g in groups;
    }
  }

  /** Some `YYYY-MM-DD.json` file of the listing is of month `m`. */
  ghost predicate HasDayFile(jsonListing: seq<string>, m: string) {
    exists d :: DigitPattern(d, DayPattern) && d + ".json" in jsonListing && MonthOf(d) == m
  }

  /**
   * From the listings: a month is rendered exactly when it has a day file
   * and its month file is not listed before the run, or is the last month
   * file listed.
   */
  lemma RenderedSpec(jsonListing: seq<string>, txtListing: seq<string>, m: string)
    requires NoRepeats(txtListing)
    ensures Rendered(DayNames(jsonListing, ".json"), DoneMonths(txtListing), m) <==>
      HasDayFile(jsonListing, m)
      && !(DigitPattern(m, MonthPattern) && m + ".txt" in txtListing && LastOf(MonthFiles(txtListing)) != Some(m + ".txt"))
  {
    var days := DayNames(jsonListing, ".json");
    DayNamesSpec(jsonListing, ".json");
    DoneMonthsSpec(txtListing, m);
    if HasMonth(days, m) {
      var d :| d in days && MonthOf(d) == m;
      assert DigitPattern(d, DayPattern) && d + ".json" in jsonListing;
    }
    if HasDayFile(jsonListing, m) {
      var d :| DigitPattern(d, DayPattern) && d + ".json" in jsonListing && MonthOf(d) == m;
      assert d in days;
    }
  }

  /**
   * Running the rooms in any order of the same names: the run throws
   * exactly when some room throws; every write is a write of some room, and
   * without a throw every room's writes are made.
   */
  lemma {:induction false} RunsInOrder(names: seq<string>, rooms: seq<string>, runs: seq<TxtRun>, runOf: string -> TxtRun, w: TxtWrite)
    requires multiset(rooms) == multiset(names) && |runs| == |rooms|
    requires forall k :: 0 <= k < |rooms| ==> runs[k] == runOf(rooms[k])
    ensures var r := Performed(runs, |rooms|);
      && (r.thrown.None? <==> forall room :: room in names ==> runOf(room).thrown.None?)
      && (w in r.writes ==> exists room :: room in names && w in runOf(room).writes)
      && (r.thrown.None? ==> (exists room :: room in names && w in runOf(room).writes) ==> w in r.writes)
  {
    PerformedSpec(runs, |rooms|);
    var r := Performed(runs, |rooms|);
    forall room ensures room in names <==> room in rooms {
      assert room in multiset(rooms) <==> room in multiset(names);
    }
    if r.thrown.None? {
      forall room | room in names ensures runOf(room).thrown.None? {
        var k :| 0 <= k < |rooms| && rooms[k] == room;
      }
    }
    if forall room :: room in names ==> runOf(room).thrown.None? {
      forall k | 0 <= k < |rooms| ensures runs[k].thrown.None? {
        assert rooms[k] in names;
      }
    }
    if w in r.writes {
      var k :| 0 <= k < |rooms| && w in runs[k].writes;
      assert rooms[k] in names;
    }
    if exists room :: room in names && w in runOf(room).writes {
      var room :| room in names && w in runOf(room).writes;
      var k :| 0 <= k < |rooms| && rooms[k] == room;
      assert WrittenBy(runs, |rooms|, w);
    }
  }

  /** The run of a room, as a function of its name. */
  function RoomRunOf(disk: TxtDisk, offset: int -> int): string -> TxtRun {
    room => Room(disk, offset, room)
  }

  /**
   * The whole run throws exactly when some room's run throws; every write
   * is a write of some room, and without a throw every room's writes are made.
   */
  lemma SiteSpec(disk: TxtDisk, offset: int -> int, w: TxtWrite)
    ensures var r := Site(disk, offset);
      var runOf := RoomRunOf(disk, offset);
      && (r.thrown.None? <==> forall room :: room in disk.roomNames ==> runOf(room).thrown.None?)
      && (w in r.writes ==> exists room :: room in disk.roomNames && w in runOf(room).writes)
      && (r.thrown.None? ==> (exists room :: room in disk.roomNames && w in runOf(room).writes) ==> w in r.writes)
  {
    var rooms := Sort(disk.roomNames);
    var runs := RoomRuns(disk, offset, rooms);
    forall k | 0 <= k < |rooms| ensures runs[k] == RoomRunOf(disk, offset)(rooms[k]) {
      RoomRunsAt(disk, offset, rooms, k);
    }
    RunsInOrder(disk.roomNames, rooms, runs, RoomRunOf(disk, offset), w);
  }
}

