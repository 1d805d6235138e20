/**
 * `irc-logs-to-fake-json.js`: turning a logbot archive of one IRC channel
 * into day files the renderers read. Each line
 * `YYYY-MM-DDTHH:MM:SS #channel <nick> message` (or `-nick-` for a
 * notice, `* nick` for an action) becomes an entry; consecutive entries
 * of one UTC day are written together as `YYYY-MM-DD.json`, and an
 * existing file is never overwritten.
 */
module IrcImport {
  import opened Common
  import opened Strings
  import opened Calendar
  import opened Events
  import opened Edits
  import opened Seqs

  // ---------------------------------------------------------------------
  // The line pattern
  // ---------------------------------------------------------------------

  /** The shape of the timestamp group: `d` stands for a digit. */
  const StampPattern: string := "dddd-dd-ddTdd:dd:dd"

  predicate StampShape(s: string) {
    DigitPattern(s, StampPattern)
  }

  /**
   * `[A-Za-z0-9#-_]`: the letters, the digits, and the range from `#` to
   * `_`, which the unescaped `-` makes of `#-_`.
   */
  predicate ChannelChar(c: char) {
    ('A' <= c <= 'Z') || ('a' <= c <= 'z') || ('0' <= c <= '9') || ('#' <= c <= '_')
  }

  predicate ChannelName(s: string) {
    |s| >= 2 && s[0] == '#' && forall i :: 1 <= i < |s| ==> ChannelChar(s[i])
  }

  /** `(<[^>]+>)|(-[^-]+-)|(\* [^ ]+)` matched as a whole. */
  predicate UnameShape(u: string) {
    |u| >= 3 &&
    ((u[0] == '<' && u[|u| - 1] == '>' && '>' !in u[1..|u| - 1])
     || (u[0] == '-' && u[|u| - 1] == '-' && '-' !in u[1..|u| - 1])
     || (u[0] == '*' && u[1] == ' ' && ' ' !in u[2..]))
  }

  /** The character classes whose runs the pattern matches: `[A-Za-z0-9#-_]`, `[^x]` and `.`. */
  datatype CharClass = ChannelChars | AllBut(x: char) | MessageChars

  predicate InClass(p: CharClass, c: char) {
    match p
    case ChannelChars => ChannelChar(c)
    case AllBut(x) => c != x
    case MessageChars => NotTerminator(c)
  }

  /** The end of the run of characters of class `p` that starts at `k`. */
  function RunEnd(s: string, k: nat, p: CharClass): (e: nat)
    requires k <= |s|
    ensures k <= e <= |s|
    ensures forall i :: k <= i < e ==> InClass(p, s[i])
    ensures e == |s| || !InClass(p, s[e])
    decreases |s| - k
  {
    if k == |s| || !InClass(p, s[k]) then k else RunEnd(s, k + 1, p)
  }

  lemma {:induction false} RunEndAt(s: string, k: nat, p: CharClass, e: nat)
    requires k <= e <= |s|
    requires forall i :: k <= i < e ==> InClass(p, s[i])
    requires e == |s| || !InClass(p, s[e])
    ensures RunEnd(s, k, p) == e
    decreases e - k
  {
    if k < e {
      RunEndAt(s, k + 1, p, e);
    }
  }

  /** The end of the `uname` group starting at `u`, when one of its three forms matches there. */
  function UnameEnd(line: string, u: nat): (r: Option<nat>)
    requires u <= |line|
    ensures r.Some? ==> u < r.value <= |line|
  {
    if u + 1 < |line| && line[u] == '<' then
      var k := RunEnd(line, u + 1, AllBut('>'));
      if k > u + 1 && k < |line| then Some(k + 1) else None
    else if u + 1 < |line| && line[u] == '-' then
      var k := RunEnd(line, u + 1, AllBut('-'));
      if k > u + 1 && k < |line| then Some(k + 1) else None
    else if u + 2 < |line| && line[u] == '*' && line[u + 1] == ' ' then
      var k := RunEnd(line, u + 2, AllBut(' '));
      if k > u + 2 then Some(k) else None
    else None
  }

  /** What `UnameEnd` finds is one of the three forms of the `uname` group. */
  lemma UnameEndShape(line: string, u: nat)
    requires u <= |line|
    ensures UnameEnd(line, u).Some? ==> UnameShape(line[u..UnameEnd(line, u).value])
  {
    if UnameEnd(line, u).Some? {
      var e := UnameEnd(line, u).value;
      var g := line[u..e];
      if line[u] == '<' {
        assert forall i :: 1 <= i < |g| - 1 ==> g[i] == line[u + i];
      } else if line[u] == '-' {
        assert forall i :: 1 <= i < |g| - 1 ==> g[i] == line[u + i];
      } else {
        assert forall i :: 2 <= i < |g| ==> g[i] == line[u + i];
      }
    }
  }

  /** The named groups of a matched line. */
  datatype Parsed = Parsed(stamp: string, channel: string, uname: string, message: string)

  /**
   * `line.match(/^(?<ts>…) (?<channelName>…) (?<uname>…) (?<message>.*)/)`.
   * Every group ends where the next separator must stand, so the match,
   * when there is one, is the one found here.
   */
  function ParseLine(line: string): (r: Option<Parsed>)
    ensures r.Some? ==> |line| >= 22 && r.value.stamp == line[..19] && StampShape(r.value.stamp)
  {
    if |line| < 22 || !StampShape(line[..19]) || line[19] != ' ' || line[20] != '#' then None
    else
      var c := RunEnd(line, 21, ChannelChars);
      if c == 21 || c == |line| || line[c] != ' ' then None
      else
        match AfterChannel(line, c + 1)
        case None => None
        case Some((e, m)) =>
          Some(Parsed(line[..19], line[20..c], line[c + 1..e], line[e + 1..m]))
  }

  /** Where the `uname` group, starting at `u`, and the `message` group end. */
  function AfterChannel(line: string, u: nat): (r: Option<(nat, nat)>)
    requires u <= |line|
    ensures r.Some? ==> u < r.value.0 < r.value.1 + 1 <= |line| + 1 && r.value.0 + 1 <= r.value.1
  {
    match UnameEnd(line, u)
    case None => None
    case Some(e) =>
      if e == |line| || line[e] != ' ' then None
      else
        var m := RunEnd(line, e + 1, MessageChars);
        Some((e, m))
  }

  /** The `uname` group found after the channel has its shape, and the message holds no line terminator. */
  lemma AfterChannelShape(line: string, u: nat)
    requires u <= |line|
    ensures var r := AfterChannel(line, u);
      r.Some? ==> UnameShape(line[u..r.value.0]) && forall k :: r.value.0 + 1 <= k < r.value.1 ==> NotTerminator(line[k])
  {
    UnameEndShape(line, u);
  }

  /** Every group of a match has the shape its pattern demands. */
  lemma ParsedShape(line: string)
    ensures var r := ParseLine(line);
      r.Some? ==> && StampShape(r.value.stamp) && ChannelName(r.value.channel) && UnameShape(r.value.uname)
                  && forall i :: 0 <= i < |r.value.message| ==> NotTerminator(r.value.message[i])
  {
    if ParseLine(line).Some? {
      var c := RunEnd(line, 21, ChannelChars);
      var (e, m) := AfterChannel(line, c + 1).value;
      ParseLineAt(line, c, e, m);
      ChannelSlice(line, c);
      AfterChannelShape(line, c + 1);
      RunSlice(line, e + 1, m);
    }
  }

  /** The run of channel characters after `#` makes a channel name. */
  lemma ChannelSlice(line: string, c: nat)
    requires 21 < c <= |line| && line[20] == '#' && RunEnd(line, 21, ChannelChars) == c
    ensures ChannelName(line[20..c])
  {
    assert forall i :: 1 <= i < c - 20 ==> line[20..c][i] == line[20 + i];
  }

  /** A slice of the message run holds no line terminator. */
  lemma RunSlice(line: string, k: nat, m: nat)
    requires k <= m <= |line| && forall i :: k <= i < m ==> NotTerminator(line[i])
    ensures forall i :: 0 <= i < |line[k..m]| ==> NotTerminator(line[k..m][i])
  {
    assert forall i :: 0 <= i < m - k ==> line[k..m][i] == line[k + i];
  }

  /** A line written in the archive's format is matched with exactly its parts. */
  lemma ParseFormatted(stamp: string, channel: string, uname: string, message: string)
    requires StampShape(stamp) && ChannelName(channel) && UnameShape(uname)
    requires forall i :: 0 <= i < |message| ==> NotTerminator(message[i])
    ensures ParseLine(stamp + " " + channel + " " + uname + " " + message) == Some(Parsed(stamp, channel, uname, message))
  {
    var line := stamp + " " + channel + " " + uname + " " + message;
    Pieces(stamp, ' ', channel, ' ', uname, ' ', message);
    ParsedFrom(line, 20 + |channel|, 21 + |channel| + |uname|, Parsed(stamp, channel, uname, message));
  }

  /**
   * A line whose separators stand at 19, `c` and `e`, with the parts
   * between them of the right shapes, is matched with those parts.
   */
  lemma ParsedFrom(line: string, c: nat, e: nat, p: Parsed)
    requires StampShape(p.stamp) && ChannelName(p.channel) && UnameShape(p.uname)
    requires forall i :: 0 <= i < |p.message| ==> NotTerminator(p.message[i])
    requires c == 20 + |p.channel| && e == c + 1 + |p.uname| && e < |line|
    requires line[..19] == p.stamp && line[19] == ' ' && line[20..c] == p.channel && line[c] == ' '
    requires line[c + 1..e] == p.uname && line[e] == ' ' && line[e + 1..|line|] == p.message
    ensures ParseLine(line) == Some(p)
  {
    ChannelRun(line, c, p.channel);
    UnameEndFormatted(line, c + 1, p.uname);
    MessageRun(line, e + 1, p.message);
    AfterChannelAt(line, c + 1, e, |line|);
    ParseLineAt(line, c, e, |line|);
    SameParsed(ParseLine(line), Parsed(line[..19], line[20..c], line[c + 1..e], line[e + 1..|line|]), p);
  }

  lemma SameParsed(r: Option<Parsed>, p: Parsed, q: Parsed)
    requires r == Some(p) && p.stamp == q.stamp && p.channel == q.channel && p.uname == q.uname && p.message == q.message
    ensures r == Some(q)
  {
  }

  /** A channel name after the stamp is the whole run of channel characters. */
  lemma ChannelRun(line: string, c: nat, channel: string)
    requires ChannelName(channel) && c == 20 + |channel| && c < |line|
    requires line[20..c] == channel && line[c] == ' '
    ensures line[20] == '#' && RunEnd(line, 21, ChannelChars) == c
  {
    forall i | 20 <= i < c ensures line[i] == channel[i - 20] {
      assert line[20..c][i - 20] == line[i];
    }
    RunEndAt(line, 21, ChannelChars, c);
  }

  /** A message without line terminators runs to the end of the line. */
  lemma MessageRun(line: string, k: nat, message: string)
    requires k <= |line| && line[k..|line|] == message
    requires forall i :: 0 <= i < |message| ==> NotTerminator(message[i])
    ensures RunEnd(line, k, MessageChars) == |line|
  {
    forall i | k <= i < |line| ensures NotTerminator(line[i]) {
      assert line[k..|line|][i - k] == line[i];
    }
    RunEndAt(line, k, MessageChars, |line|);
  }

  /** How `AfterChannel` is assembled from its stages. */
  lemma AfterChannelAt(line: string, u: nat, e: nat, m: nat)
    requires u <= |line| && UnameEnd(line, u) == Some(e) && e < |line| && line[e] == ' '
    requires RunEnd(line, e + 1, MessageChars) == m
    ensures AfterChannel(line, u) == Some((e, m))
  {
  }

  /** How `ParseLine` is assembled from its stages. */
  lemma ParseLineAt(line: string, c: nat, e: nat, m: nat)
    requires |line| >= 22 && StampShape(line[..19]) && line[19] == ' ' && line[20] == '#'
    requires 21 < c < |line| && RunEnd(line, 21, ChannelChars) == c && line[c] == ' '
    requires AfterChannel(line, c + 1) == Some((e, m))
    ensures ParseLine(line) == Some(Parsed(line[..19], line[20..c], line[c + 1..e], line[e + 1..m]))
  {
  }

  lemma UnameEndFormatted(line: string, u: nat, uname: string)
    requires UnameShape(uname) && u + |uname| < |line| && line[u..u + |uname|] == uname && line[u + |uname|] == ' '
    ensures UnameEnd(line, u) == Some(u + |uname|)
  {
    var n := |uname|;
    forall i | 0 <= i < n ensures line[u + i] == uname[i] {
      assert line[u..u + n][i] == line[u + i];
    }
    if uname[0] == '<' {
      forall i | u + 1 <= i < u + n - 1 ensures line[i] != '>' {
        assert uname[1..n - 1][i - u - 1] == uname[i - u];
      }
      RunEndAt(line, u + 1, AllBut('>'), u + n - 1);
    } else if uname[0] == '-' {
      forall i | u + 1 <= i < u + n - 1 ensures line[i] != '-' {
        assert uname[1..n - 1][i - u - 1] == uname[i - u];
      }
      RunEndAt(line, u + 1, AllBut('-'), u + n - 1);
    } else {
      forall i | u + 2 <= i < u + n ensures line[i] != ' ' {
        assert uname[2..][i - u - 2] == uname[i - u];
      }
      RunEndAt(line, u + 2, AllBut(' '), u + n);
    }
  }

  // ---------------------------------------------------------------------
  // Entries
  // ---------------------------------------------------------------------

  /** `uname.substring(2)`: JavaScript clamps the start to the length. */
  function Substring2(u: string): string {
    if |u| >= 2 then u[2..] else []
  }

  /** `uname.slice(1, -1)`: the characters between the first and the last. */
  function SliceInner(u: string): string {
    if |u| >= 2 then u[1..|u| - 1] else []
  }

  /** What the `uname` group says: the sender, and whether it is an action or a notice. */
  datatype Speaker = Speaker(nick: string, isSlashMe: bool, isIrcNotice: bool)

  function DecodeUname(u: string): (s: Speaker)
    ensures s.isSlashMe <==> |u| > 0 && u[0] == '*'
    ensures s.isIrcNotice <==> |u| > 0 && u[0] == '-'
  {
    var slashMe := |u| > 0 && u[0] == '*';
    var notice := |u| > 0 && u[0] == '-';
    Speaker(if slashMe then Substring2(u) else SliceInner(u), slashMe, notice)
  }

  /** The three forms of `uname` and what each decodes to. */
  lemma DecodeForms(nick: string)
    ensures DecodeUname("<" + nick + ">") == Speaker(nick, false, false)
    ensures DecodeUname("-" + nick + "-") == Speaker(nick, false, true)
    ensures DecodeUname("* " + nick) == Speaker(nick, true, false)
  {
    assert ("<" + nick + ">")[1..|nick| + 1] == nick;
    assert ("-" + nick + "-")[1..|nick| + 1] == nick;
    assert ("* " + nick)[2..] == nick;
  }

  /** One entry of a fake day file; `ts` is `None` where `Date.parse` gave `NaN`. */
  datatype IrcEntry = IrcEntry(content: Content, ts: Option<int>, senderName: string, senderId: string)

  const IrcSuffix: string := "@irc"

  /** The entry built from a matched line and its parsed time. */
  function EntryOf(p: Parsed, ts: Option<int>): (e: IrcEntry)
    ensures var s := DecodeUname(p.uname);
      && e.senderName == s.nick
      && e.senderId == s.nick + IrcSuffix
      && e.content.Content? && e.content.body == p.message
      && e.content.msgtype == Some(if s.isSlashMe then EmoteType else TextType)
      && e.content.isIrcNotice == s.isIrcNotice
      && e.ts == ts
  {
    var s := DecodeUname(p.uname);
    IrcEntry(PlainContent(p.message, if s.isSlashMe then EmoteType else TextType, s.isIrcNotice), ts, s.nick, s.nick + IrcSuffix)
  }

  /** `${year}-${month}-${date}.json` of `new Date(ts)`; `NaN` fields for an invalid date. */
  function FileNameOf(ts: Option<int>): string {
    (if ts.Some? then TsToDay(ts.value) else "NaN-NaN-NaN") + ".json"
  }

  function FileOf(e: IrcEntry): string {
    FileNameOf(e.ts)
  }

  // ---------------------------------------------------------------------
  // Reading the stamp
  // ---------------------------------------------------------------------

  /** The six fields of a `YYYY-MM-DDTHH:MM:SS` stamp. */
  datatype Stamp = Stamp(date: Date, hour: int, minute: int, second: int)

  /** The digits and separators of a stamp, at the places `StampPattern` puts them. */
  lemma StampDigits(s: string)
    requires StampShape(s)
    ensures |s| == 19 && s[4] == '-' && s[7] == '-'
    ensures AllDigits(s[..4]) && AllDigits(s[5..7]) && AllDigits(s[8..10])
    ensures AllDigits(s[11..13]) && AllDigits(s[14..16]) && AllDigits(s[17..])
  {
    forall i | 0 <= i < 19 ensures PatternChar(s[i], StampPattern[i]) {
      DigitPatternAt(s, StampPattern, i);
    }
  }

  function StampFields(s: string): Stamp
    requires StampShape(s)
  {
    StampDigits(s);
    Stamp(Date(DigitsValue(s[..4]), DigitsValue(s[5..7]), DigitsValue(s[8..10])),
          DigitsValue(s[11..13]), DigitsValue(s[14..16]), DigitsValue(s[17..]))
  }

  /** Fields in range: a calendar date, an hour of 0 to 23, minutes and seconds of 0 to 59. */
  predicate ValidStamp(t: Stamp) {
    ValidDate(t.date) && 0 <= t.hour <= 23 && 0 <= t.minute <= 59 && 0 <= t.second <= 59
  }

  /** The milliseconds since 1970-01-01T00:00:00Z of a stamp read as UTC. */
  function StampTime(t: Stamp): int
    requires ValidStamp(t)
  {
    DayNumberOf(t.date) * MsPerDay + ((t.hour * 60 + t.minute) * 60 + t.second) * 1000
  }

  /**
   * `Date.parse(stamp + 'Z')` on the stamps whose fields are in range: the
   * string is in ECMAScript's date-time format `YYYY-MM-DDTHH:mm:ssZ`,
   * read as UTC. What the engine makes of fields out of range is left open.
   */
  ghost predicate ParsesStamps(parse: string -> Option<int>) {
    forall s :: StampShape(s) && ValidStamp(StampFields(s)) ==> parse(s + "Z") == Some(StampTime(StampFields(s)))
  }

  /** A reading of that format which gives `NaN` for fields out of range. */
  function StampParse(x: string): Option<int> {
    if |x| == 20 && x[19] == 'Z' && StampShape(x[..19]) && ValidStamp(StampFields(x[..19]))
    then Some(StampTime(StampFields(x[..19])))
    else None
  }

  /** `ParsesStamps` can be met: `StampParse` meets it. */
  lemma StampParseParses()
    ensures ParsesStamps(StampParse)
  {
    forall s | StampShape(s) && ValidStamp(StampFields(s))
      ensures StampParse(s + "Z") == Some(StampTime(StampFields(s)))
    {
      StampDigits(s);
      assert (s + "Z")[..19] == s;
    }
  }

  /** A time of day below a day's milliseconds leaves the day number alone. */
  lemma DayOfTime(day: int, time: int)
    requires 0 <= time < MsPerDay
    ensures (day * MsPerDay + time) / MsPerDay == day
  {
  }

  /** A date of a four-digit year lies well within the days a time value can reach. */
  lemma DayNumberBounds(d: Date)
    requires ValidDate(d) && 1000 <= d.year <= 9999
    ensures -400000 <= DayNumberOf(d) <= 3000000
  {
    YearStartBounds(d.year);
    DaysBeforeMonthStep(d.year, d.month);
  }

  /** A stamp of a four-digit year is a valid time, on its own date. */
  lemma StampTimeDate(t: Stamp)
    requires ValidStamp(t) && 1000 <= t.date.year <= 9999
    ensures ValidTime(StampTime(t)) && UtcDate(StampTime(t)) == t.date
  {
    var day := DayNumberOf(t.date);
    var time := ((t.hour * 60 + t.minute) * 60 + t.second) * 1000;
    DayNumberBounds(t.date);
    ClockBounds(t.hour, t.minute, t.second);
    DayOfTime(day, time);
    assert UtcDayNumber(StampTime(t)) == day;
    DateOfDayNumberCorrect(day);
    DayNumberInjective(DateOfDayNumber(day), t.date);
  }

  /** The milliseconds of a time of day stay below a day's. */
  lemma ClockBounds(hour: int, minute: int, second: int)
    requires 0 <= hour <= 23 && 0 <= minute <= 59 && 0 <= second <= 59
    ensures 0 <= ((hour * 60 + minute) * 60 + second) * 1000 < MsPerDay
  {
  }

  /** The date of a stamp of a four-digit year prints as the stamp's first ten characters. */
  lemma StampDateText(s: string)
    requires StampShape(s) && ValidDate(StampFields(s).date) && s[0] != '0'
    ensures 1000 <= StampFields(s).date.year <= 9999
    ensures FormatDate(StampFields(s).date) == s[..10]
  {
    StampDigits(s);
    var d := StampFields(s).date;
    FourDigits(s[..4]);
    var f := FormatDate(d);
    FormatDateShape(d);
    DigitsValueInjective(f[..4], s[..4]);
    DigitsValueInjective(f[5..7], s[5..7]);
    DigitsValueInjective(f[8..], s[8..10]);
    assert f == f[..4] + "-" + f[5..7] + "-" + f[8..];
    assert s[..10] == s[..4] + "-" + s[5..7] + "-" + s[8..10];
  }

  /**
   * With stamps read as UTC, a stamp whose fields are in range and whose
   * year has four digits, the first not `0`, names its own day file:
   * `2020-01-02T23:59:59` goes in `2020-01-02.json`.
   */
  lemma StampDayFile(s: string, parse: string -> Option<int>)
    requires ParsesStamps(parse) && StampShape(s) && ValidStamp(StampFields(s)) && s[0] != '0'
    ensures FileNameOf(parse(s + "Z")) == s[..10] + ".json"
  {
    var t := StampFields(s);
    StampDateText(s);
    StampTimeDate(t);
    assert TsToDay(StampTime(t)) == FormatDate(t.date);
  }

  // ---------------------------------------------------------------------
  // The line loop
  // ---------------------------------------------------------------------

  /**
   * What one line is to the loop: blank, not matching the pattern, or an
   * entry of a channel together with the day file it belongs in.
   */
  datatype LineKind = Skip | NoMatch | Entry(channel: string, entry: IrcEntry, file: string)

  /** The blank test, the regular expression and `Date.parse` applied to one line. */
  function Classify(line: string, parse: string -> Option<int>): (k: LineKind)
    ensures k.Skip? <==> Blank(line)
    ensures k.NoMatch? <==> !Blank(line) && ParseLine(line).None?
    ensures k.Entry? ==> ParseLine(line).Some? && k.channel == ParseLine(line).value.channel
    ensures k.Entry? ==> k.file == FileOf(k.entry)
  {
    if Blank(line) then Skip
    else match ParseLine(line)
      case None => NoMatch
      case Some(p) =>
        var entry := EntryOf(p, parse(p.stamp + "Z"));
        Entry(p.channel, entry, FileOf(entry))
  }

  /**
   * With stamps read as UTC, an entry whose stamp has fields in range and a
   * year from 1000 goes in the day file of the date written at the head of
   * its line.
   */
  lemma ClassifyDayFile(line: string, parse: string -> Option<int>)
    requires ParsesStamps(parse) && !Blank(line) && ParseLine(line).Some?
    requires ValidStamp(StampFields(ParseLine(line).value.stamp)) && line[0] != '0'
    ensures var k := Classify(line, parse); k.Entry? && k.file == line[..10] + ".json"
  {
    var stamp := line[..19];
    assert stamp[..10] == line[..10] && stamp[0] == line[0];
    StampDayFile(stamp, parse);
  }

  /** `f` applied to every element, in order. */
  function MapAll<A, B>(s: seq<A>, f: A -> B): (r: seq<B>)
    ensures |r| == |s|
  {
    if s == [] then [] else MapAll(s[..|s| - 1], f) + [f(s[|s| - 1])]
  }

  lemma {:induction false} MapAllAt<A, B>(s: seq<A>, f: A -> B, i: nat)
    requires i < |s|
    ensures MapAll(s, f)[i] == f(s[i])
  {
    if i < |s| - 1 {
      MapAllAt(s[..|s| - 1], f, i);
    }
  }

  /** Every line, classified. */
  function Classified(lines: seq<string>, parse: string -> Option<int>): (r: seq<LineKind>)
    ensures |r| == |lines|
  {
    MapAll(lines, line => Classify(line, parse))
  }

  lemma ClassifiedAt(lines: seq<string>, parse: string -> Option<int>, i: nat)
    requires i < |lines|
    ensures Classified(lines, parse)[i] == Classify(lines[i], parse)
  {
    MapAllAt(lines, line => Classify(line, parse), i);
  }

  /**
   * The script's variables and what it has written: the channel, the
   * current day file and its entries, the files written so far, and
   * the order they were written in.
   */
  datatype ImportState = ImportState(
    channel: Option<string>,
    currentFile: Option<string>,
    entries: seq<IrcEntry>,
    written: map<string, seq<IrcEntry>>,
    order: seq<string>)

  const Fresh: ImportState := ImportState(None, None, [], map[], [])

  /**
   * `writeCurrentBatch()`: nothing before the first line; otherwise the
   * current day's entries go to its file, unless the file exists already
   * (before the run, or written earlier in it).
   */
  function Flush(st: ImportState, existing: set<string>): (r: Result<ImportState, Thrown>)
    ensures st.currentFile.Some? && r.Ok? ==> st.currentFile.value !in existing && st.currentFile.value !in st.written
    ensures st.currentFile.Some? && (st.currentFile.value in existing || st.currentFile.value in st.written) ==> r.Err?
    ensures st.currentFile.None? ==> r == Ok(st)
    ensures st.currentFile.Some? && r.Ok? ==> var f := st.currentFile.value;
      && r.value.written.Keys == st.written.Keys + {f} && r.value.written[f] == st.entries
      && forall g :: g in st.written ==> r.value.written[g] == st.written[g]
    ensures r.Ok? ==> r.value.channel == st.channel && r.value.currentFile == st.currentFile && r.value.entries == st.entries
  {
    match st.currentFile
    case None => Ok(st)
    case Some(f) =>
      if f in existing || f in st.written then Err(Error(f + " already exists; not overwriting"))
      else Ok(st.(written := st.written[f := st.entries], order := st.order + [f]))
  }

  /** The directory a live room of this channel would have. */
  function LiveRoomName(channel: string): string {
    "irc-" + DropHashes(channel)
  }

  predicate Blank(line: string) {
    Trim(line) == []
  }

  /**
   * One line of the loop. `liveRooms` are the directories under
   * `logs/json`, `existing` the files already in the channel's directory.
   */
  function LineStep(st: ImportState, kind: LineKind, liveRooms: set<string>, existing: set<string>): Result<ImportState, Thrown> {
    match kind
    case Skip => Ok(st)
    case NoMatch => Err(Error("could not parse line"))
    case Entry(channel, entry, file) =>
      if st.channel.None? && LiveRoomName(channel) in liveRooms then
        Err(Error("channel name already exists in non-historical logs"))
      else if st.channel.Some? && st.channel.value != channel then
        Err(Error("channel name is not consistent"))
      else
        var st1 :- if st.currentFile != Some(file) then
            var f :- Flush(st, existing);
            Ok(f.(currentFile := Some(file), entries := []))
          else Ok(st);
        Ok(st1.(channel := Some(channel), entries := st1.entries + [entry]))
  }

  /** The loop over the first `n` lines. */
  function Lines(kinds: seq<LineKind>, n: nat, liveRooms: set<string>, existing: set<string>): Result<ImportState, Thrown>
    requires n <= |kinds|
  {
    if n == 0 then Ok(Fresh)
    else
      var st :- Lines(kinds, n - 1, liveRooms, existing);
      LineStep(st, kinds[n - 1], liveRooms, existing)
  }

  /** The whole script: the loop, then the last `writeCurrentBatch()`. */
  function ImportSpec(lines: seq<string>, parse: string -> Option<int>, liveRooms: set<string>, existing: set<string>): Result<ImportState, Thrown> {
    var st :- Lines(Classified(lines, parse), |lines|, liveRooms, existing);
    Flush(st, existing)
  }

  /** Once a line has failed, the loop's result is that failure. */
  lemma {:induction false} LinesFailOnward(kinds: seq<LineKind>, m: nat, n: nat, liveRooms: set<string>, existing: set<string>)
    requires m <= n <= |kinds| && Lines(kinds, m, liveRooms, existing).Err?
    ensures Lines(kinds, n, liveRooms, existing) == Lines(kinds, m, liveRooms, existing)
    decreases n - m
  {
    if m < n {
      LinesFailOnward(kinds, m, n - 1, liveRooms, existing);
    }
  }

  /** A step that fails at line `i` fails the whole loop. */
  lemma LinesStop(kinds: seq<LineKind>, i: nat, st: ImportState, liveRooms: set<string>, existing: set<string>)
    requires i < |kinds| && Lines(kinds, i, liveRooms, existing) == Ok(st)
    requires LineStep(st, kinds[i], liveRooms, existing).Err?
    ensures Lines(kinds, |kinds|, liveRooms, existing).Err?
  {
    assert Lines(kinds, i + 1, liveRooms, existing).Err?;
    LinesFailOnward(kinds, i + 1, |kinds|, liveRooms, existing);
  }

  // ---------------------------------------------------------------------
  // What the loop keeps
  // ---------------------------------------------------------------------

  /** The entries of the first `n` lines, in order. */
  function EntriesOf(kinds: seq<LineKind>, n: nat): seq<IrcEntry>
    requires n <= |kinds|
  {
    if n == 0 then []
    else EntriesOf(kinds, n - 1) + (if kinds[n - 1].Entry? then [kinds[n - 1].entry] else [])
  }

  /** The written files' contents, in the order written. */
  function Flat(order: seq<string>, written: map<string, seq<IrcEntry>>): seq<IrcEntry>
    requires forall k :: 0 <= k < |order| ==> order[k] in written
  {
    if order == [] then [] else Flat(order[..|order| - 1], written) + written[order[|order| - 1]]
  }

  /**
   * Entries that all belong in `file`, by `fileOf`. The proofs of the
   * loop hold for any naming of day files; `FileOf` is the script's.
   */
  predicate OfDay(entries: seq<IrcEntry>, file: string, fileOf: IrcEntry -> string) {
    forall e :: e in entries ==> fileOf(e) == file
  }

  /** Every entry line names the file of its entry. */
  predicate Filed(kinds: seq<LineKind>, fileOf: IrcEntry -> string) {
    forall i :: 0 <= i < |kinds| && kinds[i].Entry? ==> fileOf(kinds[i].entry) == kinds[i].file
  }

  /**
   * What has been written: every file once, none over an existing one,
   * each non-empty and holding entries of its own day only.
   */
  predicate WrittenOk(order: seq<string>, written: map<string, seq<IrcEntry>>, existing: set<string>, fileOf: IrcEntry -> string) {
    && (forall k :: 0 <= k < |order| ==> order[k] in written && order[k] !in existing)
    && (forall k :: 0 <= k < |order| ==> written[order[k]] != [] && OfDay(written[order[k]], order[k], fileOf))
    && (forall f :: f in written ==> f in order)
    && (forall k, k' :: 0 <= k < k' < |order| ==> order[k] != order[k'])
  }

  /** The batch being collected: empty before the first line, else non-empty and of one day. */
  predicate CurrentOk(st: ImportState, fileOf: IrcEntry -> string) {
    && (st.currentFile.None? ==> st.entries == [] && st.order == [])
    && (st.currentFile.Some? ==> st.entries != [] && OfDay(st.entries, st.currentFile.value, fileOf))
  }

  /** The batching invariant of the line loop. */
  predicate Batched(st: ImportState, existing: set<string>, fileOf: IrcEntry -> string) {
    WrittenOk(st.order, st.written, existing, fileOf) && CurrentOk(st, fileOf)
  }

  lemma {:induction false} FlatFrame(order: seq<string>, written: map<string, seq<IrcEntry>>, f: string, x: seq<IrcEntry>)
    requires forall k :: 0 <= k < |order| ==> order[k] in written
    requires f !in order
    ensures Flat(order, written[f := x]) == Flat(order, written)
  {
    if order != [] {
      FlatFrame(order[..|order| - 1], written, f, x);
    }
  }

  /** Writing one more new, non-empty, single-day file keeps `WrittenOk` and extends `Flat`. */
  lemma WrittenAppend(order: seq<string>, written: map<string, seq<IrcEntry>>, existing: set<string>, fileOf: IrcEntry -> string, f: string, x: seq<IrcEntry>)
    requires WrittenOk(order, written, existing, fileOf)
    requires f !in existing && f !in written && x != [] && OfDay(x, f, fileOf)
    ensures WrittenOk(order + [f], written[f := x], existing, fileOf)
    ensures Flat(order + [f], written[f := x]) == Flat(order, written) + x
  {
    FlatFrame(order, written, f, x);
    assert (order + [f])[..|order|] == order;
  }

  /** `writeCurrentBatch()` appends the current batch to what is written and keeps the invariant. */
  lemma FlushWrites(st: ImportState, existing: set<string>, fileOf: IrcEntry -> string)
    requires Batched(st, existing, fileOf) && Flush(st, existing).Ok?
    ensures var st' := Flush(st, existing).value;
      && WrittenOk(st'.order, st'.written, existing, fileOf)
      && Flat(st'.order, st'.written) == Flat(st.order, st.written) + st.entries
      && st'.channel == st.channel && st'.currentFile == st.currentFile && st'.entries == st.entries
  {
    if st.currentFile.Some? {
      WrittenAppend(st.order, st.written, existing, fileOf, st.currentFile.value, st.entries);
    }
  }

  /** Appending an entry of the current day to the current batch. */
  lemma AddEntry(mid: ImportState, file: string, entry: IrcEntry, existing: set<string>, channel: Option<string>, fileOf: IrcEntry -> string)
    requires WrittenOk(mid.order, mid.written, existing, fileOf)
    requires mid.currentFile == Some(file) && OfDay(mid.entries, file, fileOf) && fileOf(entry) == file
    ensures Batched(mid.(channel := channel, entries := mid.entries + [entry]), existing, fileOf)
  {
  }

  /** One line keeps the batching invariant and adds exactly its own entry. */
  lemma LineStepKeeps(st: ImportState, kind: LineKind, liveRooms: set<string>, existing: set<string>, fileOf: IrcEntry -> string)
    requires Batched(st, existing, fileOf) && LineStep(st, kind, liveRooms, existing).Ok?
    requires kind.Entry? ==> fileOf(kind.entry) == kind.file
    ensures var st' := LineStep(st, kind, liveRooms, existing).value;
      && Batched(st', existing, fileOf)
      && Flat(st'.order, st'.written) + st'.entries
         == Flat(st.order, st.written) + st.entries + (if kind.Entry? then [kind.entry] else [])
  {
    if kind.Entry? {
      if st.currentFile != Some(kind.file) {
        EntryNewDay(st, kind.entry, kind.file, kind.channel, existing, fileOf);
      } else {
        EntrySameDay(st, kind.entry, kind.file, kind.channel, existing, fileOf);
      }
    } else {
      assert Flat(st.order, st.written) + st.entries + [] == Flat(st.order, st.written) + st.entries;
    }
  }

  /** An entry of the current day joins the batch. */
  lemma EntrySameDay(st: ImportState, entry: IrcEntry, file: string, channel: string, existing: set<string>, fileOf: IrcEntry -> string)
    requires Batched(st, existing, fileOf) && fileOf(entry) == file && st.currentFile == Some(file)
    ensures var st' := st.(channel := Some(channel), entries := st.entries + [entry]);
      && Batched(st', existing, fileOf)
      && Flat(st'.order, st'.written) + st'.entries == Flat(st.order, st.written) + st.entries + [entry]
  {
    AddEntry(st, file, entry, existing, Some(channel), fileOf);
  }

  /** An entry of another day: the batch is written, and a new one starts with the entry. */
  lemma EntryNewDay(st: ImportState, entry: IrcEntry, file: string, channel: string, existing: set<string>, fileOf: IrcEntry -> string)
    requires Batched(st, existing, fileOf) && fileOf(entry) == file && st.currentFile != Some(file)
    requires Flush(st, existing).Ok?
    ensures var mid := Flush(st, existing).value.(currentFile := Some(file), entries := []);
      var st' := mid.(channel := Some(channel), entries := mid.entries + [entry]);
      && Batched(st', existing, fileOf)
      && Flat(st'.order, st'.written) + st'.entries == Flat(st.order, st.written) + st.entries + [entry]
  {
    var flushed := Flush(st, existing).value;
    FlushWrites(st, existing, fileOf);
    NewBatch(flushed, entry, file, channel, existing, fileOf);
  }

  /** A written-out state starts a new batch with one entry. */
  lemma NewBatch(flushed: ImportState, entry: IrcEntry, file: string, channel: string, existing: set<string>, fileOf: IrcEntry -> string)
    requires WrittenOk(flushed.order, flushed.written, existing, fileOf) && fileOf(entry) == file
    ensures var mid := flushed.(currentFile := Some(file), entries := []);
      var st' := mid.(channel := Some(channel), entries := mid.entries + [entry]);
      && Batched(st', existing, fileOf)
      && Flat(st'.order, st'.written) + st'.entries == Flat(flushed.order, flushed.written) + [entry]
  {
    var mid := flushed.(currentFile := Some(file), entries := []);
    AddEntry(mid, file, entry, existing, Some(channel), fileOf);
    assert mid.entries + [entry] == [entry];
  }

  /** A blank line, or an entry line of `channel`. */
  predicate OfChannel(kind: LineKind, channel: Option<string>) {
    kind.Skip? || (kind.Entry? && channel == Some(kind.channel))
  }

  /** A line that goes through is blank or names the channel: the one seen before, or a first one with no live room. */
  lemma LineStepChannel(st: ImportState, kind: LineKind, liveRooms: set<string>, existing: set<string>)
    requires LineStep(st, kind, liveRooms, existing).Ok?
    ensures var st' := LineStep(st, kind, liveRooms, existing).value;
      && OfChannel(kind, st'.channel)
      && (st.channel.Some? ==> st'.channel == st.channel)
      && (st.channel.None? && st'.channel.Some? ==> LiveRoomName(st'.channel.value) !in liveRooms)
  {
  }

  /** What the loop keeps over the first `n` lines: the batches and their contents. */
  lemma {:induction false} LinesKeep(kinds: seq<LineKind>, n: nat, liveRooms: set<string>, existing: set<string>, fileOf: IrcEntry -> string)
    requires n <= |kinds| && Filed(kinds, fileOf) && Lines(kinds, n, liveRooms, existing).Ok?
    ensures var st := Lines(kinds, n, liveRooms, existing).value;
      && Batched(st, existing, fileOf)
      && Flat(st.order, st.written) + st.entries == EntriesOf(kinds, n)
  {
    if n > 0 {
      LinesKeep(kinds, n - 1, liveRooms, existing, fileOf);
      LineStepKeeps(Lines(kinds, n - 1, liveRooms, existing).value, kinds[n - 1], liveRooms, existing, fileOf);
    }
  }

  /** What the loop keeps over the first `n` lines: one channel, whose live room does not exist. */
  lemma {:induction false} LinesChannel(kinds: seq<LineKind>, n: nat, liveRooms: set<string>, existing: set<string>)
    requires n <= |kinds| && Lines(kinds, n, liveRooms, existing).Ok?
    ensures var st := Lines(kinds, n, liveRooms, existing).value;
      && (forall i :: 0 <= i < n ==> OfChannel(kinds[i], st.channel))
      && (st.channel.Some? ==> LiveRoomName(st.channel.value) !in liveRooms)
  {
    if n > 0 {
      LinesChannel(kinds, n - 1, liveRooms, existing);
      var prev := Lines(kinds, n - 1, liveRooms, existing).value;
      LineStepChannel(prev, kinds[n - 1], liveRooms, existing);
    }
  }

  /**
   * A run that succeeds writes every entry exactly once, in order,
   * batched by day into files that did not exist, each batch non-empty
   * and of one day.
   */
  lemma ImportWritesAll(lines: seq<string>, parse: string -> Option<int>, liveRooms: set<string>, existing: set<string>)
    requires ImportSpec(lines, parse, liveRooms, existing).Ok?
    ensures var st := ImportSpec(lines, parse, liveRooms, existing).value;
      && WrittenOk(st.order, st.written, existing, FileOf)
      && Flat(st.order, st.written) == EntriesOf(Classified(lines, parse), |lines|)
  {
    var kinds := Classified(lines, parse);
    forall i | 0 <= i < |kinds| && kinds[i].Entry? ensures FileOf(kinds[i].entry) == kinds[i].file {
      ClassifiedAt(lines, parse, i);
    }
    LinesKeep(kinds, |lines|, liveRooms, existing, FileOf);
    FlushWrites(Lines(kinds, |lines|, liveRooms, existing).value, existing, FileOf);
  }

  /**
   * A run that succeeds saw only blank lines and lines that match, all
   * naming one channel, whose live room does not exist.
   */
  lemma ImportOneChannel(lines: seq<string>, parse: string -> Option<int>, liveRooms: set<string>, existing: set<string>)
    requires ImportSpec(lines, parse, liveRooms, existing).Ok?
    ensures var st := ImportSpec(lines, parse, liveRooms, existing).value;
      && (forall i :: 0 <= i < |lines| && !Blank(lines[i]) ==>
            ParseLine(lines[i]).Some? && st.channel == Some(ParseLine(lines[i]).value.channel))
      && (st.channel.Some? ==> LiveRoomName(st.channel.value) !in liveRooms)
  {
    var kinds := Classified(lines, parse);
    LinesChannel(kinds, |lines|, liveRooms, existing);
    var st0 := Lines(kinds, |lines|, liveRooms, existing).value;
    var st := ImportSpec(lines, parse, liveRooms, existing).value;
    assert st.channel == st0.channel;
    forall i | 0 <= i < |lines| && !Blank(lines[i])
      ensures ParseLine(lines[i]).Some? && st.channel == Some(ParseLine(lines[i]).value.channel)
    {
      assert OfChannel(kinds[i], st0.channel);
      ClassifiedAt(lines, parse, i);
      ClassifyChannel(lines[i], parse, st.channel);
    }
  }

  lemma ClassifyChannel(line: string, parse: string -> Option<int>, channel: Option<string>)
    requires !Blank(line) && OfChannel(Classify(line, parse), channel)
    ensures ParseLine(line).Some? && channel == Some(ParseLine(line).value.channel)
  {
  }

  // ---------------------------------------------------------------------
  // The script
  // ---------------------------------------------------------------------

  /**
   * The script as it runs: its variables, and the day files it writes
   * (`written`, with `order` the order of the writes). `liveRooms` and
   * `existing` are what `fs.existsSync` finds when the run starts.
   */
  class Importer {
    var channel: Option<string>
    var currentFile: Option<string>
    var entries: seq<IrcEntry>
    var written: map<string, seq<IrcEntry>>
    var order: seq<string>
    const liveRooms: set<string>
    const existing: set<string>

    function State(): ImportState
      reads this
    {
      ImportState(channel, currentFile, entries, written, order)
    }

    constructor(liveRooms: set<string>, existing: set<string>)
      ensures State() == Fresh && this.liveRooms == liveRooms && this.existing == existing
    {
      this.liveRooms := liveRooms;
      this.existing := existing;
      channel := None;
      currentFile := None;
      entries := [];
      written := map[];
      order := [];
    }

    /** `writeCurrentBatch()` */
    method WriteCurrentBatch() returns (r: Result<(), Thrown>)
      modifies this
      ensures var spec := Flush(old(State()), existing);
        (r.Ok? <==> spec.Ok?) && (r.Ok? ==> State() == spec.value)
      ensures r.Err? ==> written == old(written) && order == old(order)
    {
      if currentFile.None? {
        return Ok(());
      }
      var f := currentFile.value;
      if f in existing || f in written {
        return Err(Error(f + " already exists; not overwriting"));
      }
      written := written[f := entries];
      order := order + [f];
      return Ok(());
    }

    /** One turn of the loop over the lines. */
    method ImportLine(line: string, parse: string -> Option<int>) returns (r: Result<(), Thrown>)
      modifies this
      ensures var spec := LineStep(old(State()), Classify(line, parse), liveRooms, existing);
        (r.Ok? <==> spec.Ok?) && (r.Ok? ==> State() == spec.value)
      ensures r.Err? ==> written == old(written) && order == old(order)
    {
      r := Take(Classify(line, parse));
    }

    /** The rest of a turn, once the line is classified. */
    method Take(kind: LineKind) returns (r: Result<(), Thrown>)
      modifies this
      ensures var spec := LineStep(old(State()), kind, liveRooms, existing);
        (r.Ok? <==> spec.Ok?) && (r.Ok? ==> State() == spec.value)
      ensures r.Err? ==> written == old(written) && order == old(order)
    {
      match kind {
        case Skip =>
          return Ok(());
        case NoMatch =>
          return Err(Error("could not parse line"));
        case Entry(ch, entry, file) =>
          if channel.None? && LiveRoomName(ch) in liveRooms {
            return Err(Error("channel name already exists in non-historical logs"));
          } else if channel.Some? && channel.value != ch {
            return Err(Error("channel name is not consistent"));
          }
          if currentFile != Some(file) {
            var w := WriteCurrentBatch();
            if w.Err? {
              return Err(w.error);
            }
            currentFile := Some(file);
            entries := [];
          }
          channel := Some(ch);
          entries := entries + [entry];
          return Ok(());
      }
    }

    /** The script: every line in order, then the last batch. */
    method Import(lines: seq<string>, parse: string -> Option<int>) returns (r: Result<(), Thrown>)
      requires State() == Fresh
      modifies this
      ensures var spec := ImportSpec(lines, parse, liveRooms, existing);
        (r.Ok? <==> spec.Ok?) && (r.Ok? ==> State() == spec.value)
      ensures r.Err? ==>
        exists i: nat, st: ImportState ::
          && i <= |lines| && StoppedAt(lines, parse, liveRooms, existing, i, st)
          && written == st.written && order == st.order
    {
      for i := 0 to |lines|
        invariant Lines(Classified(lines, parse), i, liveRooms, existing) == Ok(State())
      {
        ghost var before := State();
        var step := ImportLine(lines[i], parse);
        if step.Err? {
          ImportStops(lines, parse, liveRooms, existing, i, before);
          assert StoppedAt(lines, parse, liveRooms, existing, i, before);
          return Err(step.error);
        }
        ImportGoesOn(lines, parse, liveRooms, existing, i, before);
      }
      ghost var last := State();
      ImportEnds(lines, parse, liveRooms, existing, last);
      r := WriteCurrentBatch();
      if r.Err? {
        assert StoppedAt(lines, parse, liveRooms, existing, |lines|, last);
      }
    }
  }

  /**
   * The script stopped at line `i` (at `i == |lines|`: at the last
   * `writeCurrentBatch()`) with the loop in state `st`: the files written
   * by then stay written.
   */
  predicate StoppedAt(lines: seq<string>, parse: string -> Option<int>, liveRooms: set<string>, existing: set<string>, i: nat, st: ImportState)
    requires i <= |lines|
  {
    && Lines(Classified(lines, parse), i, liveRooms, existing) == Ok(st)
    && if i < |lines| then LineStep(st, Classify(lines[i], parse), liveRooms, existing).Err? else Flush(st, existing).Err?
  }

  /** A line that fails fails the whole script. */
  lemma ImportStops(lines: seq<string>, parse: string -> Option<int>, liveRooms: set<string>, existing: set<string>, i: nat, st: ImportState)
    requires i < |lines| && Lines(Classified(lines, parse), i, liveRooms, existing) == Ok(st)
    requires LineStep(st, Classify(lines[i], parse), liveRooms, existing).Err?
    ensures ImportSpec(lines, parse, liveRooms, existing).Err?
  {
    ClassifiedAt(lines, parse, i);
    LinesStop(Classified(lines, parse), i, st, liveRooms, existing);
  }

  /** A line that goes through extends the loop by one line. */
  lemma ImportGoesOn(lines: seq<string>, parse: string -> Option<int>, liveRooms: set<string>, existing: set<string>, i: nat, st: ImportState)
    requires i < |lines| && Lines(Classified(lines, parse), i, liveRooms, existing) == Ok(st)
    requires LineStep(st, Classify(lines[i], parse), liveRooms, existing).Ok?
    ensures Lines(Classified(lines, parse), i + 1, liveRooms, existing) == LineStep(st, Classify(lines[i], parse), liveRooms, existing)
  {
    ClassifiedAt(lines, parse, i);
  }

  /** After the last line, the script's result is the last batch's write. */
  lemma ImportEnds(lines: seq<string>, parse: string -> Option<int>, liveRooms: set<string>, existing: set<string>, st: ImportState)
    requires Lines(Classified(lines, parse), |lines|, liveRooms, existing) == Ok(st)
    ensures ImportSpec(lines, parse, liveRooms, existing) == Flush(st, existing)
  {
  }
}
