/**
 * `render-html.js`: one HTML page per archived day, newest day first, with
 * links to the neighbouring days; a redirect page per room to its newest
 * day; and a site index listing the rooms.
 */
module RenderHtml {
  import opened Common
  import opened Strings
  import opened Events
  import opened Calendar
  import opened RenderCommon

  // ---------------------------------------------------------------------
  // Listings without repeated names

  /** Stripping an extension every name carries maps the listing one to one. */
  lemma {:induction false} StripAllCount(fs: seq<string>, ext: string, d: string)
    requires forall f :: f in fs ==> EndsWith(f, ext)
    ensures multiset(StripAll(fs, ext))[d] == multiset(fs)[d + ext]
  {
    if fs != [] {
      var f := fs[0];
      assert f in fs;
      assert f == f[..|f| - |ext|] + ext;
      assert StripSuffix(f, ext) == d <==> f == d + ext;
      StripAllCount(fs[1..], ext, d);
      assert fs == [f] + fs[1..];
      assert StripAll(fs, ext) == [StripSuffix(f, ext)] + StripAll(fs[1..], ext);
    }
  }

  /** A listing without repeats yields day names without repeats. */
  lemma DayNamesNoRepeats(listing: seq<string>, ext: string)
    requires 'd' !in ext && NoRepeats(listing)
    ensures NoRepeats(DayNames(listing, ext))
  {
    var files := Filter(listing, f => IsDayFile(f, ext));
    forall f | f in files ensures EndsWith(f, ext) {
      IsDayFileParts(f, ext);
      assert f == f[..10] + f[10..];
    }
    forall d ensures multiset(DayNames(listing, ext))[d] <= 1 {
      StripAllCount(files, ext, d);
      FilterCount(listing, f => IsDayFile(f, ext), d + ext);
    }
  }

  // ---------------------------------------------------------------------
  // Day ordering and the days already rendered

  /** Reversing an ascending list gives a descending one with the same elements. */
  lemma ReverseSorted(names: seq<string>)
    requires Sorted(names)
    ensures var newest := Reverse(names);
      && (forall i, j :: 0 <= i < j < |newest| ==> LessEq(newest[j], newest[i]))
      && (NoRepeats(names) ==> forall i, j :: 0 <= i < j < |newest| ==> Less(newest[j], newest[i]))
      && forall d :: d in newest <==> d in names
  {
    var newest := Reverse(names);
    ReverseIndex(names);
    forall d ensures d in newest <==> d in names {
      if d in names {
        var k :| 0 <= k < |names| && names[k] == d;
        assert newest[|names| - 1 - k] == d;
      }
    }
    forall i, j | 0 <= i < j < |newest| ensures LessEq(newest[j], newest[i]) {
      assert newest[j] == names[|names| - 1 - j] && newest[i] == names[|names| - 1 - i];
    }
    if NoRepeats(names) {
      forall i, j | 0 <= i < j < |newest| ensures Less(newest[j], newest[i]) {
        assert newest[j] == names[|names| - 1 - j] && newest[i] == names[|names| - 1 - i];
        NoRepeatsApart(names, |names| - 1 - j, |names| - 1 - i);
      }
    }
  }

  /** The room's days, newest first: the `.json` day files, sorted and reversed. */
  function Days(jsonListing: seq<string>): seq<string> {
    Reverse(DayNames(jsonListing, ".json"))
  }

  /**
   * The days are newest first (strictly so, since a directory holds each
   * file once), and they are exactly the `YYYY-MM-DD` names with a `.json` file.
   */
  lemma DaysSpec(jsonListing: seq<string>)
    ensures var days := Days(jsonListing);
      && (forall i, j :: 0 <= i < j < |days| ==> LessEq(days[j], days[i]))
      && (NoRepeats(jsonListing) ==> forall i, j :: 0 <= i < j < |days| ==> Less(days[j], days[i]))
      && forall d :: d in days <==> DigitPattern(d, DayPattern) && d + ".json" in jsonListing
  {
    var names := DayNames(jsonListing, ".json");
    DayNamesSpec(jsonListing, ".json");
    if NoRepeats(jsonListing) {
      DayNamesNoRepeats(jsonListing, ".json");
    }
    ReverseSorted(names);
  }

  /** `arr.slice(k)`: empty when `k` reaches past the end. */
  function SliceFrom<T>(s: seq<T>, k: nat): (r: seq<T>)
    ensures |r| == if k <= |s| then |s| - k else 0
  {
    if k <= |s| then s[k..] else []
  }

  /** Reversing and dropping two leaves the names below the last two positions. */
  lemma SkipNewestTwoIndex(names: seq<string>, d: string)
    ensures d in SliceFrom(Reverse(names), 2) <==> exists k :: 0 <= k < |names| - 2 && names[k] == d
  {
    ReverseIndex(names);
    var r := SliceFrom(Reverse(names), 2);
    if d in r {
      var m :| 0 <= m < |r| && r[m] == d;
      assert r[m] == names[|names| - 3 - m];
    }
    if exists k :: 0 <= k < |names| - 2 && names[k] == d {
      var k :| 0 <= k < |names| - 2 && names[k] == d;
      assert r[|names| - 3 - k] == d;
    }
  }

  /** In an ascending list, a name strictly above another sits after it. */
  lemma AboveIsAfter(names: seq<string>, k: nat, i: nat)
    requires Sorted(names) && k < |names| && i < |names| && Less(names[k], names[i])
    ensures k < i
  {
    if i < k {
      LessEqAntisymmetric(names[k], names[i]);
    }
  }

  /** A name before the last two of an ascending list without repeats is below both of them. */
  lemma BelowLastTwoFrom(names: seq<string>, k: nat)
    requires Sorted(names) && NoRepeats(names) && k < |names| - 2
    ensures var n := |names|;
      names[n - 1] != names[n - 2] && Less(names[k], names[n - 1]) && Less(names[k], names[n - 2])
  {
    var n := |names|;
    NoRepeatsApart(names, n - 2, n - 1);
    NoRepeatsApart(names, k, n - 1);
    NoRepeatsApart(names, k, n - 2);
  }

  /**
   * In an ascending list without repeats, the names before the last two are
   * exactly the names below two others.
   */
  lemma BelowLastTwo(names: seq<string>, d: string)
    requires Sorted(names) && NoRepeats(names)
    ensures (exists k :: 0 <= k < |names| - 2 && names[k] == d) <==>
        && d in names
        && exists a, b :: a in names && b in names && a != b && Less(d, a) && Less(d, b)
  {
    var n := |names|;
    if exists k :: 0 <= k < n - 2 && names[k] == d {
      var k :| 0 <= k < n - 2 && names[k] == d;
      BelowLastTwoFrom(names, k);
      var a, b := names[n - 1], names[n - 2];
      assert a in names && b in names && a != b && Less(d, a) && Less(d, b);
    }
    if d in names && exists a, b :: a in names && b in names && a != b && Less(d, a) && Less(d, b) {
      var a, b :| a in names && b in names && a != b && Less(d, a) && Less(d, b);
      BelowTwoIsEarly(names, d, a, b);
    }
  }

  /** A name below two distinct others comes before the last two positions. */
  lemma BelowTwoIsEarly(names: seq<string>, d: string, a: string, b: string)
    requires Sorted(names) && d in names && a in names && b in names && a != b && Less(d, a) && Less(d, b)
    ensures exists k :: 0 <= k < |names| - 2 && names[k] == d
  {
    var n := |names|;
    var k :| 0 <= k < n && names[k] == d;
    var ia :| 0 <= ia < n && names[ia] == a;
    var ib :| 0 <= ib < n && names[ib] == b;
    AboveIsAfter(names, k, ia);
    AboveIsAfter(names, k, ib);
    assert k < n - 2;
  }

  /** The rendered days that are not rendered again: all but the two newest `.html` days. */
  function AlreadyDone(htmlListing: seq<string>): seq<string> {
    SliceFrom(Reverse(DayNames(htmlListing, ".html")), 2)
  }

  /**
   * A day is skipped exactly when it already has an `.html` page and two
   * other rendered days are newer: the two newest rendered days are always
   * rendered again.
   */
  lemma AlreadyDoneSpec(htmlListing: seq<string>, d: string)
    requires NoRepeats(htmlListing)
    ensures var names := DayNames(htmlListing, ".html");
      d in AlreadyDone(htmlListing) <==>
        && d in names
        && exists a, b :: a in names && b in names && a != b && Less(d, a) && Less(d, b)
  {
    DayNamesSpec(htmlListing, ".html");
    DayNamesNoRepeats(htmlListing, ".html");
    SkipNewestTwoIndex(DayNames(htmlListing, ".html"), d);
    BelowLastTwo(DayNames(htmlListing, ".html"), d);
  }

  // ---------------------------------------------------------------------
  // Navigation between days

  /** The `prev` (older) and `next` (newer) links of a day page; `None` is `null`. */
  datatype Nav = Nav(prev: Option<string>, next: Option<string>)

  /** The links of `days[i]` in the newest-first list. */
  function NavAt(days: seq<string>, i: nat): Nav
    requires i < |days|
  {
    Nav(if i < |days| - 1 then Some(days[i + 1]) else None, if i > 0 then Some(days[i - 1]) else None)
  }

  /**
   * The oldest day has no `prev` link and the newest no `next`; following
   * `prev` and then `next` comes back; in a newest-first list `prev` is
   * older and `next` newer.
   */
  lemma NavLinks(days: seq<string>, i: nat)
    requires i < |days|
    ensures NavAt(days, i).prev.None? <==> i == |days| - 1
    ensures NavAt(days, i).next.None? <==> i == 0
    ensures NavAt(days, i).prev.Some? ==> NavAt(days, i + 1).next == Some(days[i])
    ensures NavAt(days, i).next.Some? ==> NavAt(days, i - 1).prev == Some(days[i])
    ensures (forall a, b :: 0 <= a < b < |days| ==> Less(days[b], days[a])) ==>
      && (NavAt(days, i).prev.Some? ==> Less(NavAt(days, i).prev.value, days[i]))
      && (NavAt(days, i).next.Some? ==> Less(days[i], NavAt(days, i).next.value))
  {
  }

  // ---------------------------------------------------------------------
  // renderEvent

  /** The `HH` and `MM` of the UTC time of day; an invalid date prints `NaN` for each. */
  function UtcClock(ts: int): (string, string) {
    if ValidTime(ts) then (Pad2((ts % MsPerDay) / 3600000), Pad2((ts % 3600000) / 60000))
    else ("NaN", "NaN")
  }

  /** The hour and minute of the UTC day locate `ts` to the minute. */
  lemma ClockArithmetic(ts: int)
    ensures var t, h, m := ts % MsPerDay, (ts % MsPerDay) / 3600000, (ts % 3600000) / 60000;
      && 0 <= h < 24 && 0 <= m < 60
      && h * 3600000 + m * 60000 <= t < h * 3600000 + (m + 1) * 60000
  {
    var t := ts % MsPerDay;
    DayRemainder(ts);
    assert t == (t / 3600000) * 3600000 + t % 3600000;
  }

  /** What is left of a day, taken by the hour, leaves what is left of an hour. */
  lemma DayRemainder(ts: int)
    ensures ts % MsPerDay % 3600000 == ts % 3600000
  {
  }

  /** The clock shows two-digit hours and minutes of the UTC minute holding `ts`. */
  lemma UtcClockSpec(ts: int)
    requires ValidTime(ts)
    ensures var (h, m) := UtcClock(ts);
      && |h| == 2 && AllDigits(h) && |m| == 2 && AllDigits(m)
      && DigitsValue(h) < 24 && DigitsValue(m) < 60
      && DigitsValue(h) * 3600000 + DigitsValue(m) * 60000 <= ts % MsPerDay
      && ts % MsPerDay < DigitsValue(h) * 3600000 + (DigitsValue(m) + 1) * 60000
  {
    ClockArithmetic(ts);
    Pad2Shape((ts % MsPerDay) / 3600000);
    Pad2Shape((ts % 3600000) / 60000);
  }

  const HtmlFormat: string := "org.matrix.custom.html"

  /**
   * One table row of a day page: its anchor `L<index>`, the UTC clock, the
   * nick colour class, the escaped sender id and short name, whether the
   * name is wrapped in `&lt;…&gt;` (plain text; emotes are not), and the
   * message HTML (`None` when an HTML message has no `formatted_body`).
   */
  datatype Row = Row(
    id: string, hours: string, minutes: string, nickClass: string,
    title: string, name: string, bracketed: bool, contents: Option<string>)

  /** `renderEvent(event, index)`, before linkification. */
  function RenderEvent(e: Event, index: nat, crc: string -> int): (r: Result<Row, Thrown>)
    ensures r.Ok? <==> e.content.Content? && IsTextOrEmote(e.content.msgtype)
    ensures e.content.Undefined? ==> r == Err(TypeError("msgtype"))
    ensures e.content.Content? && !IsTextOrEmote(e.content.msgtype) ==>
      r == Err(Error("unknown event message type " + Shown(e.content.msgtype)))
  {
    if e.content.Undefined? then Err(TypeError("msgtype"))
    else if !IsTextOrEmote(e.content.msgtype) then
      Err(Error("unknown event message type " + Shown(e.content.msgtype)))
    else
      var (h, m) := UtcClock(e.ts);
      var short := ShortName(e.senderName);
      Ok(Row(
        "L" + Decimal(index), h, m, NickClass(crc(short)),
        EscapeForHtml(e.senderId), EscapeForHtml(short),
        e.content.msgtype == Some(TextType),
        if e.content.format == Some(HtmlFormat) then e.content.formattedBody
        else Some(EscapeForHtml(e.content.body))))
  }

  /**
   * A rendered row is anchored by its position, shows the sender's short
   * name and id escaped (so they decode back), uses the nick class of the
   * short name, brackets only plain text, and shows either the message's
   * own HTML or its escaped body.
   */
  lemma RenderEventSpec(e: Event, index: nat, crc: string -> int)
    requires RenderEvent(e, index, crc).Ok?
    ensures var row := RenderEvent(e, index, crc).value;
      var short := ShortName(e.senderName);
      && row.id == "L" + Decimal(index)
      && HtmlSafe(row.name) && Unescape(row.name) == short
      && HtmlSafe(row.title) && Unescape(row.title) == e.senderId
      && row.nickClass == "nick-" + Decimal(crc(short) % 16 + 1)
      && (row.bracketed <==> e.content.msgtype == Some(TextType))
      && (e.content.format == Some(HtmlFormat) ==> row.contents == e.content.formattedBody)
      && (e.content.format != Some(HtmlFormat) ==>
            row.contents.Some? && HtmlSafe(row.contents.value) && Unescape(row.contents.value) == e.content.body)
  {
    var short := ShortName(e.senderName);
    EscapedIsSafe(short);
    UnescapeEscapeForHtml(short);
    EscapedIsSafe(e.senderId);
    UnescapeEscapeForHtml(e.senderId);
    EscapedIsSafe(e.content.body);
    UnescapeEscapeForHtml(e.content.body);
    NickIndexRange(crc(short));
  }

  /** `events.map(renderEvent)`: the rows of a day page, or the first throw. */
  function RenderRows(events: seq<Event>, crc: string -> int): Result<seq<Row>, Thrown> {
    MapUpTo((e, i) => RenderEvent(e, i, crc), events, |events|)
  }

  // ---------------------------------------------------------------------
  // The site loop

  /**
   * What the script reads: the room directory names under `logs/json`,
   * each room's listing there, each output directory's listing under
   * `logs/docs` as it was before the run, and the parsed events of a day
   * file of a room.
   */
  datatype Disk = Disk(
    roomNames: seq<string>,
    jsonListing: string -> seq<string>,
    htmlListing: string -> seq<string>,
    read: (string, string) -> seq<Event>)

  /** A written page, before markup: a day of a room, a room's redirect to its newest day, or the site index. */
  datatype Page =
    | DayPage(room: string, day: string, nav: Nav, rows: seq<Row>)
    | Redirect(target: string)
    | SiteIndex(rooms: seq<string>)

  /** A file written under `logs/docs`; the site index is in the top directory `""`. */
  datatype Write = Write(dir: string, file: string, page: Page)

  /** The files written so far, and the exception that ended the script, if any. */
  datatype Run = Run(writes: seq<Write>, thrown: Option<Thrown>)

  /** Like `Run`, also recording whether the script has executed its top-level `return`. */
  datatype Outcome = Outcome(writes: seq<Write>, thrown: Option<Thrown>, returned: bool)

  /** The rows of the day page for a room and a day, or what rendering threw. */
  type RowsFn = (string, string) -> Result<seq<Row>, Thrown>

  /** Reading a day file and rendering its events. */
  function RowsOf(disk: Disk, crc: string -> int): RowsFn {
    (room, day) => RenderRows(disk.read(room, day), crc)
  }

  /** The page of `days[i]`, or what rendering one of its events threw. */
  function DayWrite(room: string, days: seq<string>, i: nat, rowsOf: RowsFn): Result<Write, Thrown>
    requires i < |days|
  {
    var rows :- rowsOf(room, days[i]);
    Ok(Write(SanitizeRoomName(room), days[i] + ".html", DayPage(room, days[i], NavAt(days, i), rows)))
  }

  /**
   * The inner loop over the first `n` days, given what rendering each day
   * gives: the done days are skipped and the first throw ends the loop.
   */
  function DaysRun(days: seq<string>, done: seq<string>, pages: seq<Result<Write, Thrown>>, n: nat): Run
    requires n <= |days| == |pages|
  {
    if n == 0 then Run([], None)
    else
      var r := DaysRun(days, done, pages, n - 1);
      if r.thrown.Some? || days[n - 1] in done then r
      else match pages[n - 1]
        case Err(e) => Run(r.writes, Some(e))
        case Ok(w) => Run(r.writes + [w], None)
  }

  /** Day `k`, among the first `n`, is the first day not done whose rendering throws. */
  predicate FirstFailingDay(days: seq<string>, done: seq<string>, pages: seq<Result<Write, Thrown>>, k: nat, n: nat)
    requires n <= |days| == |pages|
  {
    && k < n && days[k] !in done && pages[k].Err?
    && forall i :: 0 <= i < k && days[i] !in done ==> pages[i].Ok?
  }

  /**
   * Without a throw the loop writes exactly the pages of the days not
   * done, in order; a throw is the first failing day's.
   */
  lemma {:induction false} DaysRunSpec(days: seq<string>, done: seq<string>, pages: seq<Result<Write, Thrown>>, n: nat)
    requires n <= |days| == |pages|
    ensures var r := DaysRun(days, done, pages, n);
      && (r.thrown.None? <==> forall i :: 0 <= i < n && days[i] !in done ==> pages[i].Ok?)
      && (r.thrown.None? ==> forall w :: w in r.writes <==> exists i :: 0 <= i < n && days[i] !in done && pages[i] == Ok(w))
      && (r.thrown.Some? ==> exists k: nat :: FirstFailingDay(days, done, pages, k, n) && pages[k].error == r.thrown.value)
  {
    if n > 0 {
      DaysRunSpec(days, done, pages, n - 1);
      var r := DaysRun(days, done, pages, n - 1);
      if r.thrown.Some? {
        var k: nat :| FirstFailingDay(days, done, pages, k, n - 1) && pages[k].error == r.thrown.value;
        assert FirstFailingDay(days, done, pages, k, n);
      } else if days[n - 1] !in done && pages[n - 1].Err? {
        assert FirstFailingDay(days, done, pages, n - 1, n);
      }
    }
  }

  /** Once a throw has ended the inner loop, later days change nothing. */
  lemma {:induction false} DaysRunSettled(days: seq<string>, done: seq<string>, pages: seq<Result<Write, Thrown>>, n: nat, m: nat)
    requires n <= m <= |days| == |pages| && DaysRun(days, done, pages, n).thrown.Some?
    ensures DaysRun(days, done, pages, m) == DaysRun(days, done, pages, n)
  {
    if m > n {
      DaysRunSettled(days, done, pages, n, m - 1);
    }
  }

  /** What one room of the outer loop does, and whether it has no days. */
  datatype RoomResult = RoomResult(run: Run, empty: bool)

  /** The day pages of `room`, each rendered or failed. */
  function DayWrites(room: string, days: seq<string>, rowsOf: RowsFn): (pages: seq<Result<Write, Thrown>>)
    ensures |pages| == |days|
  {
    seq(|days|, i requires 0 <= i < |days| => DayWrite(room, days, i, rowsOf))
  }

  /** One room with its days, newest first, and its days already done: the day pages, then the redirect page when it has a day. */
  function RoomWith(room: string, days: seq<string>, done: seq<string>, rowsOf: RowsFn): RoomResult {
    var r := DaysRun(days, done, DayWrites(room, days, rowsOf), |days|);
    if r.thrown.Some? || |days| == 0 then RoomResult(r, |days| == 0)
    else RoomResult(Run(r.writes + [Write(SanitizeRoomName(room), "index.html", Redirect(days[0]))], None), false)
  }

  /** One room of the disk. */
  function RoomOf(disk: Disk, rowsOf: RowsFn, room: string): RoomResult {
    RoomWith(room, Days(disk.jsonListing(room)), AlreadyDone(disk.htmlListing(SanitizeRoomName(room))), rowsOf)
  }

  /**
   * The outer loop over the first `n` rooms, given what each room does.
   * With `stopOnEmpty` a room without days ends the whole script, as the
   * top-level `return` does.
   */
  function RoomsRun(results: seq<RoomResult>, n: nat, stopOnEmpty: bool): Outcome
    requires n <= |results|
  {
    if n == 0 then Outcome([], None, false)
    else
      var o := RoomsRun(results, n - 1, stopOnEmpty);
      if o.thrown.Some? || o.returned then o
      else
        var r := results[n - 1];
        Outcome(o.writes + r.run.writes, r.run.thrown, stopOnEmpty && r.run.thrown.None? && r.empty)
  }

  /** Once the script has thrown or returned, later rooms change nothing. */
  lemma {:induction false} RoomsRunSettled(results: seq<RoomResult>, n: nat, m: nat, stopOnEmpty: bool)
    requires n <= m <= |results|
    requires RoomsRun(results, n, stopOnEmpty).thrown.Some? || RoomsRun(results, n, stopOnEmpty).returned
    ensures RoomsRun(results, m, stopOnEmpty) == RoomsRun(results, n, stopOnEmpty)
  {
    if m > n {
      RoomsRunSettled(results, n, m - 1, stopOnEmpty);
    }
  }

  /** What each room of `rooms` does, in order. */
  function RoomResults(disk: Disk, rowsOf: RowsFn, rooms: seq<string>): (results: seq<RoomResult>)
    ensures |results| == |rooms|
  {
    if rooms == [] then []
    else RoomResults(disk, rowsOf, rooms[..|rooms| - 1]) + [RoomOf(disk, rowsOf, rooms[|rooms| - 1])]
  }

  lemma {:induction false} RoomResultsAt(disk: Disk, rowsOf: RowsFn, rooms: seq<string>, k: nat)
    requires k < |rooms|
    ensures RoomResults(disk, rowsOf, rooms)[k] == RoomOf(disk, rowsOf, rooms[k])
  {
    if k < |rooms| - 1 {
      RoomResultsAt(disk, rowsOf, rooms[..|rooms| - 1], k);
    }
  }

  /** `results` holds what each room of `rooms` does, in order. */
  ghost predicate RoomsAre(disk: Disk, rowsOf: RowsFn, rooms: seq<string>, results: seq<RoomResult>) {
    && |results| == |rooms|
    && forall k {:trigger rooms[k]} :: 0 <= k < |rooms| ==> results[k] == RoomOf(disk, rowsOf, rooms[k])
  }

  lemma RoomResultsAre(disk: Disk, rowsOf: RowsFn, rooms: seq<string>)
    ensures RoomsAre(disk, rowsOf, rooms, RoomResults(disk, rowsOf, rooms))
  {
    forall k | 0 <= k < |rooms| {
      RoomResultsAt(disk, rowsOf, rooms, k);
    }
  }

  /** After the loop over `rooms`: the site index is written when nothing threw or returned and there is a room. */
  function SiteRun(rooms: seq<string>, results: seq<RoomResult>, stopOnEmpty: bool): Run
    requires |results| == |rooms|
  {
    var o := RoomsRun(results, |rooms|, stopOnEmpty);
    if o.thrown.Some? || o.returned || |rooms| == 0 then Run(o.writes, o.thrown)
    else Run(o.writes + [Write("", "index.html", SiteIndex(rooms))], None)
  }

  /** The whole script: every room in sorted order, then the site index. */
  function Site(disk: Disk, crc: string -> int, stopOnEmpty: bool): Run {
    var rooms := Sort(disk.roomNames);
    SiteRun(rooms, RoomResults(disk, RowsOf(disk, crc), rooms), stopOnEmpty)
  }

  /** The inner `for` loop of one room, stopping at the first throw. */
  method RenderRoomDays(room: string, days: seq<string>, done: seq<string>, rowsOf: RowsFn)
    returns (r: Run)
    ensures r == DaysRun(days, done, DayWrites(room, days, rowsOf), |days|)
  {
    ghost var pages := DayWrites(room, days, rowsOf);
    var writes: seq<Write> := [];
    for i := 0 to |days|
      invariant DaysRun(days, done, pages, i) == Run(writes, None)
    {
      var day := days[i];
      if day in done {
        continue;
      }
      assert pages[i] == DayWrite(room, days, i, rowsOf);
      var rows := rowsOf(room, day);
      if rows.Err? {
        DaysRunSettled(days, done, pages, i + 1, |days|);
        return Run(writes, Some(rows.error));
      }
      writes := writes + [Write(SanitizeRoomName(room), day + ".html", DayPage(room, day, NavAt(days, i), rows.value))];
    }
    return Run(writes, None);
  }

  /** One pass of the outer loop's body up to the top-level `return`: the day pages and the redirect. */
  method RenderRoom(disk: Disk, rowsOf: RowsFn, room: string) returns (r: Run, empty: bool)
    ensures RoomResult(r, empty) == RoomOf(disk, rowsOf, room)
  {
    var days := Days(disk.jsonListing(room));
    var done := AlreadyDone(disk.htmlListing(SanitizeRoomName(room)));
    assert RoomOf(disk, rowsOf, room) == RoomWith(room, days, done, rowsOf);
    r := RenderRoomDays(room, days, done, rowsOf);
    empty := |days| == 0;
    if r.thrown.None? && !empty {
      r := Run(r.writes + [Write(SanitizeRoomName(room), "index.html", Redirect(days[0]))], None);
    }
  }

  /** One pass of the outer loop's body: room `k` after the first `k` rooms wrote `writes`. */
  method RoomStep(disk: Disk, rowsOf: RowsFn, rooms: seq<string>, ghost results: seq<RoomResult>, k: nat, stopOnEmpty: bool, writes: seq<Write>)
    returns (o: Outcome)
    requires k < |rooms| && RoomsAre(disk, rowsOf, rooms, results)
    requires RoomsRun(results, k, stopOnEmpty) == Outcome(writes, None, false)
    ensures o == RoomsRun(results, k + 1, stopOnEmpty)
  {
    var r, empty := RenderRoom(disk, rowsOf, rooms[k]);
    o := Outcome(writes + r.writes, r.thrown, stopOnEmpty && r.thrown.None? && empty);
  }

  /** The outer `for` loop over the rooms; with `stopOnEmpty` a room without days ends it. */
  method RenderRooms(disk: Disk, rowsOf: RowsFn, rooms: seq<string>, ghost results: seq<RoomResult>, stopOnEmpty: bool)
    returns (o: Outcome)
    requires RoomsAre(disk, rowsOf, rooms, results)
    ensures o == RoomsRun(results, |rooms|, stopOnEmpty)
  {
    var writes: seq<Write> := [];
    for k := 0 to |rooms|
      invariant RoomsRun(results, k, stopOnEmpty) == Outcome(writes, None, false)
    {
      o := RoomStep(disk, rowsOf, rooms, results, k, stopOnEmpty, writes);
      if o.thrown.Some? || o.returned {
        RoomsRunSettled(results, k + 1, |rooms|, stopOnEmpty);
        return;
      }
      writes := o.writes;
    }
    o := Outcome(writes, None, false);
  }

  /**
   * The script as written: a room without day files executes the top-level
   * `return`, so no later room and no site index is rendered.
   */
  method RenderSiteAsWritten(disk: Disk, crc: string -> int) returns (writes: seq<Write>, thrown: Option<Thrown>)
    ensures Run(writes, thrown) == Site(disk, crc, true)
  {
    var rooms := Sort(disk.roomNames);
    RoomResultsAre(disk, RowsOf(disk, crc), rooms);
    var o := RenderRooms(disk, RowsOf(disk, crc), rooms, RoomResults(disk, RowsOf(disk, crc), rooms), true);
    writes, thrown := o.writes, o.thrown;
    if o.thrown.None? && !o.returned && |rooms| > 0 {
      writes := writes + [Write("", "index.html", SiteIndex(rooms))];
    }
  }

  /** The script with the evidently intended `continue`: a room without days is skipped. */
  method RenderSite(disk: Disk, crc: string -> int) returns (writes: seq<Write>, thrown: Option<Thrown>)
    ensures Run(writes, thrown) == Site(disk, crc, false)
  {
    var rooms := Sort(disk.roomNames);
    RoomResultsAre(disk, RowsOf(disk, crc), rooms);
    var o := RenderRooms(disk, RowsOf(disk, crc), rooms, RoomResults(disk, RowsOf(disk, crc), rooms), false);
    writes, thrown := o.writes, o.thrown;
    if o.thrown.None? && |rooms| > 0 {
      NeverReturns(RoomResults(disk, RowsOf(disk, crc), rooms), |rooms|);
      writes := writes + [Write("", "index.html", SiteIndex(rooms))];
    }
  }

  /** Without `stopOnEmpty` the loop never returns early. */
  lemma {:induction false} NeverReturns(results: seq<RoomResult>, n: nat)
    requires n <= |results|
    ensures !RoomsRun(results, n, false).returned
  {
    if n > 0 {
      NeverReturns(results, n - 1);
    }
  }

  /** Day `i` of `room` is not done, renders, and `w` is its page, linked to its neighbours. */
  predicate WritesDayPage(room: string, days: seq<string>, done: seq<string>, rowsOf: RowsFn, i: nat, w: Write) {
    && i < |days| && days[i] !in done && rowsOf(room, days[i]).Ok?
    && w == Write(SanitizeRoomName(room), days[i] + ".html", DayPage(room, days[i], NavAt(days, i), rowsOf(room, days[i]).value))
  }

  /** Day `k` of `room` is the first day not done whose rendering throws, and it throws `e`. */
  predicate FailsFirst(room: string, days: seq<string>, done: seq<string>, rowsOf: RowsFn, k: nat, e: Thrown) {
    && k < |days| && days[k] !in done && rowsOf(room, days[k]) == Err(e)
    && forall i :: 0 <= i < k && days[i] !in done ==> rowsOf(room, days[i]).Ok?
  }

  /**
   * The day loop of one room throws exactly when a day not done fails to
   * render, and then the first such day's error; otherwise it writes the
   * page of every day not done.
   */
  lemma RoomDaysSpec(room: string, days: seq<string>, done: seq<string>, rowsOf: RowsFn)
    ensures var d := DaysRun(days, done, DayWrites(room, days, rowsOf), |days|);
      && (d.thrown.None? <==> forall i :: 0 <= i < |days| && days[i] !in done ==> rowsOf(room, days[i]).Ok?)
      && (d.thrown.Some? ==> exists k: nat :: FailsFirst(room, days, done, rowsOf, k, d.thrown.value))
      && (d.thrown.None? ==> forall w :: w in d.writes <==> exists i: nat :: WritesDayPage(room, days, done, rowsOf, i, w))
  {
    var pages := DayWrites(room, days, rowsOf);
    DaysRunSpec(days, done, pages, |days|);
    var d := DaysRun(days, done, pages, |days|);
    forall i | 0 <= i < |days| ensures pages[i].Ok? <==> rowsOf(room, days[i]).Ok? {
      assert pages[i] == DayWrite(room, days, i, rowsOf);
    }
    if d.thrown.Some? {
      var k: nat :| FirstFailingDay(days, done, pages, k, |days|) && pages[k].error == d.thrown.value;
      assert pages[k] == DayWrite(room, days, k, rowsOf);
      assert FailsFirst(room, days, done, rowsOf, k, d.thrown.value);
    } else {
      forall w ensures w in d.writes <==> exists i: nat :: WritesDayPage(room, days, done, rowsOf, i, w) {
        if w in d.writes {
          var i :| 0 <= i < |days| && days[i] !in done && pages[i] == Ok(w);
          assert pages[i] == DayWrite(room, days, i, rowsOf);
          assert WritesDayPage(room, days, done, rowsOf, i, w);
        }
        if exists i: nat :: WritesDayPage(room, days, done, rowsOf, i, w) {
          var i: nat :| WritesDayPage(room, days, done, rowsOf, i, w);
          assert pages[i] == DayWrite(room, days, i, rowsOf);
        }
      }
    }
  }

  /**
   * One room: it counts as empty exactly when it has no day; it throws as
   * its day loop does; otherwise it writes the page of every day not done
   * and, last, the redirect to the newest day.
   */
  lemma RoomWithSpec(room: string, days: seq<string>, done: seq<string>, rowsOf: RowsFn)
    ensures var redirect := Write(SanitizeRoomName(room), "index.html", Redirect(if days == [] then "" else days[0]));
      var r := RoomWith(room, days, done, rowsOf);
      && (r.empty <==> days == [])
      && (r.run.thrown.None? <==> forall i :: 0 <= i < |days| && days[i] !in done ==> rowsOf(room, days[i]).Ok?)
      && (r.run.thrown.Some? ==> exists k: nat :: FailsFirst(room, days, done, rowsOf, k, r.run.thrown.value))
      && (r.run.thrown.None? && days != [] ==> r.run.writes[|r.run.writes| - 1] == redirect)
      && (r.run.thrown.None? ==>
            forall w :: w in r.run.writes <==> (days != [] && w == redirect) || exists i: nat :: WritesDayPage(room, days, done, rowsOf, i, w))
  {
    RoomDaysSpec(room, days, done, rowsOf);
  }

  /**
   * Without the early `return` the script throws exactly when a room
   * throws, and then the first such room's error; otherwise it writes what
   * every room writes.
   */
  lemma {:induction false} RoomsRunContinuing(results: seq<RoomResult>, n: nat)
    requires n <= |results|
    ensures var o := RoomsRun(results, n, false);
      && (o.thrown.None? <==> forall i :: 0 <= i < n ==> results[i].run.thrown.None?)
      && (o.thrown.Some? ==> exists k :: 0 <= k < n && results[k].run.thrown == o.thrown && forall i :: 0 <= i < k ==> results[i].run.thrown.None?)
      && (o.thrown.None? ==> forall w :: w in o.writes <==> exists i :: 0 <= i < n && w in results[i].run.writes)
  {
    if n > 0 {
      RoomsRunContinuing(results, n - 1);
      NeverReturns(results, n - 1);
      var o := RoomsRun(results, n - 1, false);
      if o.thrown.None? && results[n - 1].run.thrown.Some? {
        assert results[n - 1].run.thrown == RoomsRun(results, n, false).thrown;
      }
    }
  }

  /** Room `k` is the first of the first `n` rooms without days, and no room up to it throws. */
  predicate ReturnsAt(results: seq<RoomResult>, k: nat, n: nat)
    requires n <= |results|
  {
    && k < n && results[k].empty && results[k].run.thrown.None?
    && forall i :: 0 <= i < k ==> !results[i].empty && results[i].run.thrown.None?
  }

  /**
   * The early `return` compared with skipping the room: both agree until
   * the first room without days; there the script as written stops with
   * exactly what the rooms up to it wrote, a prefix of what the intended
   * script writes.
   */
  lemma {:induction false} ReturnIsPrefix(results: seq<RoomResult>, n: nat)
    requires n <= |results|
    ensures var a := RoomsRun(results, n, true);
      var c := RoomsRun(results, n, false);
      && (a.thrown.None? && !a.returned <==> forall i :: 0 <= i < n ==> !results[i].empty && results[i].run.thrown.None?)
      && (!a.returned ==> a == Outcome(c.writes, c.thrown, false))
      && (forall k: nat :: ReturnsAt(results, k, n) ==> a == Outcome(RoomsRun(results, k + 1, false).writes, None, true))
      && (a.returned ==> exists k: nat :: ReturnsAt(results, k, n))
      && a.writes <= c.writes
  {
    if n > 0 {
      ReturnIsPrefix(results, n - 1);
      NeverReturns(results, n);
      var a' := RoomsRun(results, n - 1, true);
      var r := results[n - 1];
      forall k: nat | ReturnsAt(results, k, n)
        ensures RoomsRun(results, n, true) == Outcome(RoomsRun(results, k + 1, false).writes, None, true)
      {
        if k < n - 1 {
          assert ReturnsAt(results, k, n - 1);
        }
      }
      if a'.returned {
        var k: nat :| ReturnsAt(results, k, n - 1);
        assert ReturnsAt(results, k, n);
      } else if a'.thrown.None? && r.run.thrown.None? && r.empty {
        assert ReturnsAt(results, n - 1, n);
      }
    }
  }

  /**
   * The intended script throws exactly when a room throws; otherwise it
   * writes what every room writes and, last, the site index when there is
   * a room.
   */
  lemma SiteRunSpec(rooms: seq<string>, results: seq<RoomResult>)
    requires |results| == |rooms|
    ensures var index := Write("", "index.html", SiteIndex(rooms));
      var s := SiteRun(rooms, results, false);
      && (s.thrown.None? <==> forall i :: 0 <= i < |rooms| ==> results[i].run.thrown.None?)
      && (s.thrown.None? && rooms != [] ==> |s.writes| > 0 && s.writes[|s.writes| - 1] == index)
      && (s.thrown.None? ==> forall w :: w in s.writes <==> (rooms != [] && w == index) || exists i :: 0 <= i < |rooms| && w in results[i].run.writes)
  {
    RoomsRunContinuing(results, |rooms|);
    NeverReturns(results, |rooms|);
  }

  /**
   * The script as written against the intended one: it writes a prefix of
   * what the intended script writes, the same when no room lacks days, and
   * when room `k` is the first without days it stops there, with what the
   * rooms up to `k` wrote and without the site index.
   */
  lemma SiteRunAsWritten(rooms: seq<string>, results: seq<RoomResult>)
    requires |results| == |rooms|
    ensures var a := SiteRun(rooms, results, true);
      var c := SiteRun(rooms, results, false);
      && a.writes <= c.writes
      && ((forall i :: 0 <= i < |rooms| ==> !results[i].empty) ==> a == c)
      && (forall k: nat :: ReturnsAt(results, k, |rooms|) ==> a == Run(RoomsRun(results, k + 1, false).writes, None))
  {
    ReturnIsPrefix(results, |rooms|);
    NeverReturns(results, |rooms|);
    if RoomsRun(results, |rooms|, true).returned {
      var k: nat :| ReturnsAt(results, k, |rooms|);
      assert results[k].empty;
    }
  }

  /** A room that has no day file yet renders nothing and counts as empty. */
  lemma NoDaysRoom(disk: Disk, rowsOf: RowsFn, room: string)
    requires disk.jsonListing(room) == []
    ensures RoomOf(disk, rowsOf, room) == RoomResult(Run([], None), true)
  {
    assert DayNames([], ".json") == [];
  }

  /** A site whose one room has no day file yet: as written nothing is rendered, as intended the site index is. */
  lemma OneEmptyRoom(disk: Disk, crc: string -> int)
    requires |disk.roomNames| == 1 && disk.jsonListing(disk.roomNames[0]) == []
    ensures Site(disk, crc, true) == Run([], None)
    ensures Site(disk, crc, false) == Run([Write("", "index.html", SiteIndex(disk.roomNames))], None)
  {
    var room := disk.roomNames[0];
    assert disk.roomNames == [room];
    assert Sort([room]) == [room];
    NoDaysRoom(disk, RowsOf(disk, crc), room);
    var results := [RoomResult(Run([], None), true)];
    assert RoomResults(disk, RowsOf(disk, crc), [room]) == results;
    assert RoomsRun(results, 1, true) == Outcome([], None, true);
    assert RoomsRun(results, 1, false) == Outcome([], None, false);
  }
}
