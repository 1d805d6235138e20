/**
 * Helpers that `render-html.js`, `render-txt.js` and `scripts/search.js`
 * each define with the same text: the room directory name, HTML escaping,
 * the nick colour class, the stripping of a ` (@user:server.tld)` suffix
 * from a display name, and the listing of day files.
 */
module RenderCommon {
  import opened Common
  import opened Strings

  /** `room.replace(/ /g, '_')`. */
  function SanitizeRoomName(room: string): (r: string)
    ensures |r| == |room| && ' ' !in r
    ensures forall i :: 0 <= i < |room| && room[i] != ' ' ==> r[i] == room[i]
    ensures forall i :: 0 <= i < |room| && room[i] == ' ' ==> r[i] == '_'
  {
    if room == [] then []
    else [if room[0] == ' ' then '_' else room[0]] + SanitizeRoomName(room[1..])
  }

  /** A room name without spaces is its own directory name. */
  lemma {:induction false} SanitizeWithoutSpaces(room: string)
    requires ' ' !in room
    ensures SanitizeRoomName(room) == room
  {
    if room != [] {
      assert ' ' !in room[1..];
      SanitizeWithoutSpaces(room[1..]);
      assert room == [room[0]] + room[1..];
    }
  }

  // ---------------------------------------------------------------------
  // escapeForHtml

  /** `s.replace(/c/g, rep)` for a single character `c`. */
  function ReplaceChar(s: string, c: char, rep: string): string {
    if s == [] then [] else (if s[0] == c then rep else [s[0]]) + ReplaceChar(s[1..], c, rep)
  }

  lemma {:induction false} ReplaceCharConcat(a: string, b: string, c: char, rep: string)
    ensures ReplaceChar(a + b, c, rep) == ReplaceChar(a, c, rep) + ReplaceChar(b, c, rep)
  {
    if a != [] {
      assert (a + b)[1..] == a[1..] + b;
      ReplaceCharConcat(a[1..], b, c, rep);
    } else {
      assert a + b == b;
    }
  }

  /** The five global replacements of `escapeForHtml`, `&` first. */
  function EscapeForHtml(s: string): string {
    var amp := ReplaceChar(s, '&', "&amp;");
    var lt := ReplaceChar(amp, '<', "&lt;");
    var gt := ReplaceChar(lt, '>', "&gt;");
    var quot := ReplaceChar(gt, '"', "&quot;");
    ReplaceChar(quot, '\'', "&#039;")
  }

  /** The entity a single character stands for in escaped text. */
  function Entity(c: char): string {
    if c == '&' then "&amp;"
    else if c == '<' then "&lt;"
    else if c == '>' then "&gt;"
    else if c == '"' then "&quot;"
    else if c == '\'' then "&#039;"
    else [c]
  }

  /** Escaping as a single pass: every character replaced by its entity on its own. */
  function EscapeEach(s: string): string {
    if s == [] then [] else Entity(s[0]) + EscapeEach(s[1..])
  }

  lemma EscapeForHtmlConcat(a: string, b: string)
    ensures EscapeForHtml(a + b) == EscapeForHtml(a) + EscapeForHtml(b)
  {
    var amp, amp' := ReplaceChar(a, '&', "&amp;"), ReplaceChar(b, '&', "&amp;");
    ReplaceCharConcat(a, b, '&', "&amp;");
    var lt, lt' := ReplaceChar(amp, '<', "&lt;"), ReplaceChar(amp', '<', "&lt;");
    ReplaceCharConcat(amp, amp', '<', "&lt;");
    var gt, gt' := ReplaceChar(lt, '>', "&gt;"), ReplaceChar(lt', '>', "&gt;");
    ReplaceCharConcat(lt, lt', '>', "&gt;");
    var quot, quot' := ReplaceChar(gt, '"', "&quot;"), ReplaceChar(gt', '"', "&quot;");
    ReplaceCharConcat(gt, gt', '"', "&quot;");
    ReplaceCharConcat(quot, quot', '\'', "&#039;");
  }

  lemma ReplaceCharSingle(x: char, c: char, rep: string)
    ensures ReplaceChar([x], c, rep) == if x == c then rep else [x]
  {
    assert [x][1..] == [];
  }

  lemma {:induction false} ReplaceCharAbsent(s: string, c: char, rep: string)
    requires c !in s
    ensures ReplaceChar(s, c, rep) == s
  {
    if s != [] {
      assert c !in s[1..];
      ReplaceCharAbsent(s[1..], c, rep);
      assert s == [s[0]] + s[1..];
    }
  }

  /** Text with none of `"`, `'` passes the last two replacements unchanged. */
  lemma LastTwoPassesKeep(e: string)
    requires '"' !in e && '\'' !in e
    ensures ReplaceChar(ReplaceChar(e, '"', "&quot;"), '\'', "&#039;") == e
  {
    ReplaceCharAbsent(e, '"', "&quot;");
    ReplaceCharAbsent(e, '\'', "&#039;");
  }

  /** Text with none of `>`, `"`, `'` passes the last three replacements unchanged. */
  lemma LastThreePassesKeep(e: string)
    requires '>' !in e && '"' !in e && '\'' !in e
    ensures ReplaceChar(ReplaceChar(ReplaceChar(e, '>', "&gt;"), '"', "&quot;"), '\'', "&#039;") == e
  {
    ReplaceCharAbsent(e, '>', "&gt;");
    LastTwoPassesKeep(e);
  }

  /** Text with none of `<`, `>`, `"`, `'` passes the last four replacements unchanged. */
  lemma LastFourPassesKeep(e: string)
    requires '<' !in e && '>' !in e && '"' !in e && '\'' !in e
    ensures ReplaceChar(ReplaceChar(ReplaceChar(ReplaceChar(e, '<', "&lt;"), '>', "&gt;"), '"', "&quot;"), '\'', "&#039;") == e
  {
    ReplaceCharAbsent(e, '<', "&lt;");
    LastThreePassesKeep(e);
  }

  /** `&` becomes `&amp;`, which no later pass changes. */
  lemma EscapeAmp(c: char)
    requires c == '&'
    ensures EscapeForHtml([c]) == "&amp;"
  {
    ReplaceCharSingle(c, '&', "&amp;");
    LastFourPassesKeep("&amp;");
  }

  lemma EscapeLt(c: char)
    requires c == '<'
    ensures EscapeForHtml([c]) == "&lt;"
  {
    ReplaceCharSingle(c, '&', "&amp;");
    ReplaceCharSingle(c, '<', "&lt;");
    LastThreePassesKeep("&lt;");
  }

  lemma EscapeGt(c: char)
    requires c == '>'
    ensures EscapeForHtml([c]) == "&gt;"
  {
    ReplaceCharSingle(c, '&', "&amp;");
    ReplaceCharSingle(c, '<', "&lt;");
    ReplaceCharSingle(c, '>', "&gt;");
    LastTwoPassesKeep("&gt;");
  }

  lemma EscapeQuot(c: char)
    requires c == '"'
    ensures EscapeForHtml([c]) == "&quot;"
  {
    ReplaceCharSingle(c, '&', "&amp;");
    ReplaceCharSingle(c, '<', "&lt;");
    ReplaceCharSingle(c, '>', "&gt;");
    ReplaceCharSingle(c, '"', "&quot;");
    ReplaceCharAbsent("&quot;", '\'', "&#039;");
  }

  lemma EscapeApos(c: char)
    requires c == '\''
    ensures EscapeForHtml([c]) == "&#039;"
  {
    ReplaceCharSingle(c, '&', "&amp;");
    ReplaceCharSingle(c, '<', "&lt;");
    ReplaceCharSingle(c, '>', "&gt;");
    ReplaceCharSingle(c, '"', "&quot;");
    ReplaceCharSingle(c, '\'', "&#039;");
  }

  lemma EscapeForHtmlChar(c: char)
    ensures EscapeForHtml([c]) == Entity(c)
  {
    if c == '&' {
      EscapeAmp(c);
    } else if c == '<' {
      EscapeLt(c);
    } else if c == '>' {
      EscapeGt(c);
    } else if c == '"' {
      EscapeQuot(c);
    } else if c == '\'' {
      EscapeApos(c);
    } else {
      ReplaceCharSingle(c, '&', "&amp;");
      ReplaceCharSingle(c, '<', "&lt;");
      ReplaceCharSingle(c, '>', "&gt;");
      ReplaceCharSingle(c, '"', "&quot;");
      ReplaceCharSingle(c, '\'', "&#039;");
    }
  }

  /**
   * Because `&` is replaced first, no later replacement touches an entity
   * an earlier one produced: the five passes act as one pass that maps each
   * character to its entity.
   */
  lemma {:induction false} EscapeForHtmlOnePass(s: string)
    ensures EscapeForHtml(s) == EscapeEach(s)
  {
    if s != [] {
      assert s == [s[0]] + s[1..];
      EscapeForHtmlConcat([s[0]], s[1..]);
      EscapeForHtmlChar(s[0]);
      EscapeForHtmlOnePass(s[1..]);
    }
  }

  /** None of `<`, `>`, `"`, `'` occurs. */
  predicate HtmlSafe(s: string) {
    '<' !in s && '>' !in s && '"' !in s && '\'' !in s
  }

  lemma {:induction false} EscapeEachSafe(s: string)
    ensures HtmlSafe(EscapeEach(s))
  {
    if s != [] {
      EscapeEachSafe(s[1..]);
      var e, rest := Entity(s[0]), EscapeEach(s[1..]);
      assert HtmlSafe(e);
      assert forall x :: x in e + rest ==> x in e || x in rest;
    }
  }

  /** Escaped text holds no `<`, `>`, `"` or `'`. */
  lemma EscapedIsSafe(s: string)
    ensures HtmlSafe(EscapeForHtml(s))
  {
    EscapeForHtmlOnePass(s);
    EscapeEachSafe(s);
  }

  /** Decoding of the five entities, left to right. */
  function Unescape(s: string): string
    decreases |s|
  {
    if s == [] then []
    else if StartsWith(s, "&amp;") then "&" + Unescape(s[5..])
    else if StartsWith(s, "&lt;") then "<" + Unescape(s[4..])
    else if StartsWith(s, "&gt;") then ">" + Unescape(s[4..])
    else if StartsWith(s, "&quot;") then "\"" + Unescape(s[6..])
    else if StartsWith(s, "&#039;") then "'" + Unescape(s[6..])
    else [s[0]] + Unescape(s[1..])
  }

  lemma UnescapeEntity(c: char, rest: string)
    ensures Unescape(Entity(c) + rest) == [c] + Unescape(rest)
  {
    var s := Entity(c) + rest;
    var e := Entity(c);
    assert s[..|e|] == e && s[|e|..] == rest;
    if c == '&' {
      assert StartsWith(s, "&amp;");
    } else if c == '<' {
      assert s[1] == 'l' && !StartsWith(s, "&amp;") && StartsWith(s, "&lt;");
    } else if c == '>' {
      assert s[1] == 'g' && !StartsWith(s, "&amp;") && !StartsWith(s, "&lt;") && StartsWith(s, "&gt;");
    } else if c == '"' {
      assert s[1] == 'q' && s[..|e|] == "&quot;";
      assert !StartsWith(s, "&amp;") && !StartsWith(s, "&lt;") && !StartsWith(s, "&gt;");
    } else if c == '\'' {
      assert s[1] == '#' && s[..|e|] == "&#039;";
      assert !StartsWith(s, "&amp;") && !StartsWith(s, "&lt;") && !StartsWith(s, "&gt;") && !StartsWith(s, "&quot;");
    } else {
      assert s[0] == c && s[1..] == rest;
      assert !StartsWith(s, "&amp;") && !StartsWith(s, "&lt;") && !StartsWith(s, "&gt;");
      assert !StartsWith(s, "&quot;") && !StartsWith(s, "&#039;");
    }
  }

  /** Escaping loses nothing: decoding the entities gives the text back. */
  lemma {:induction false} UnescapeEscapeForHtml(s: string)
    ensures Unescape(EscapeForHtml(s)) == s
  {
    EscapeForHtmlOnePass(s);
    UnescapeEscapeEach(s);
  }

  lemma {:induction false} UnescapeEscapeEach(s: string)
    ensures Unescape(EscapeEach(s)) == s
  {
    if s != [] {
      UnescapeEntity(s[0], EscapeEach(s[1..]));
      UnescapeEscapeEach(s[1..]);
      assert s == [s[0]] + s[1..];
    }
  }

  // ---------------------------------------------------------------------
  // getNickClass

  /** JavaScript `a % b`: the remainder takes the sign of the dividend. */
  function JsRem(a: int, b: int): (r: int)
    requires b != 0
  {
    var m := (if a >= 0 then a else -a) % (if b >= 0 then b else -b);
    if a >= 0 then m else -m
  }

  /** `(crc % 16) + 1`, moved up by 16 when not positive; `crc` is `crc.str(nick)`. */
  function NickIndex(crc: int): int {
    var k := JsRem(crc, 16) + 1;
    if k <= 0 then k + 16 else k
  }

  /**
   * The nick class number is between 1 and 16 for any integer, and is the
   * (non-negative) residue of `crc` modulo 16, plus one.
   */
  lemma NickIndexRange(crc: int)
    ensures 1 <= NickIndex(crc) <= 16
    ensures NickIndex(crc) == crc % 16 + 1
  {
    if crc < 0 {
      var m := (-crc) % 16;
      assert -crc == 16 * ((-crc) / 16) + m;
      if m == 0 {
        assert crc == 16 * -((-crc) / 16);
      } else {
        assert crc == 16 * (-((-crc) / 16) - 1) + (16 - m);
      }
    }
  }

  /** `nick-${nickClass}`. */
  function NickClass(crc: int): string {
    var k := NickIndex(crc);
    NickIndexRange(crc);
    "nick-" + Decimal(k)
  }

  // ---------------------------------------------------------------------
  // The short sender name: senderName.match(/(.*) \(@[^\):\s]+:[^\):\s]+\.[^\):\s]+\)$/)

  /** `[^\):\s]`. */
  predicate SuffixChar(c: char) {
    c != ')' && c != ':' && !IsJsSpace(c)
  }

  predicate AllSuffixChars(s: string) {
    forall i :: 0 <= i < |s| ==> SuffixChar(s[i])
  }

  /** `[^\):\s]+\.[^\):\s]+`: a dot with at least one character on each side. */
  predicate ServerPart(x: string) {
    |x| >= 3 && AllSuffixChars(x) && '.' in x[1..|x| - 1]
  }

  /** The index of the first `c` in `s`, or `|s|`. */
  function IndexOf(s: string, c: char): (k: nat)
    ensures k <= |s| && (k < |s| ==> s[k] == c) && c !in s[..k]
  {
    if s == [] || s[0] == c then 0
    else
      var k := IndexOf(s[1..], c);
      assert s[..k + 1] == [s[0]] + s[1..][..k];
      1 + k
  }

  /** ` \(@[^\):\s]+:[^\):\s]+\.[^\):\s]+\)$` matches `t` from its first character to its end. */
  predicate HandleTail(t: string) {
    && |t| >= 4 && t[..3] == " (@" && t[|t| - 1] == ')'
    && var body := t[3..|t| - 1];
      var k := IndexOf(body, ':');
      && 0 < k < |body| && AllSuffixChars(body[..k]) && ServerPart(body[k + 1..])
  }

  /** The position of the last white-space character. */
  function LastSpace(s: string): (r: Option<nat>)
    ensures r.Some? ==> r.value < |s|
  {
    if s == [] then None
    else if IsJsSpace(s[|s| - 1]) then Some(|s| - 1)
    else LastSpace(s[..|s| - 1])
  }

  lemma {:induction false} LastSpaceShape(s: string)
    ensures var r := LastSpace(s);
      && (r.Some? ==> r.value < |s| && IsJsSpace(s[r.value]))
      && (r.Some? ==> forall i :: r.value < i < |s| ==> !IsJsSpace(s[i]))
      && (r.None? ==> forall i :: 0 <= i < |s| ==> !IsJsSpace(s[i]))
  {
    if s != [] && !IsJsSpace(s[|s| - 1]) {
      LastSpaceShape(s[..|s| - 1]);
    }
  }

  /** The last white space is at `q` exactly when `s[q]` is one and none follows. */
  lemma {:induction false} LastSpaceAt(s: string, q: nat)
    requires q < |s| && IsJsSpace(s[q])
    requires forall i :: q < i < |s| ==> !IsJsSpace(s[i])
    ensures LastSpace(s) == Some(q)
    decreases |s|
  {
    if q < |s| - 1 {
      var s' := s[..|s| - 1];
      assert forall i :: q < i < |s'| ==> s'[i] == s[i];
      LastSpaceAt(s', q);
    }
  }

  /** Where `(.*)` starts in the leftmost match ending at `q`: just after the last line terminator before `q`. */
  function LineStart(s: string, q: nat): (p: nat)
    requires q <= |s|
    ensures p <= q
  {
    if q == 0 || !NotTerminator(s[q - 1]) then q else LineStart(s, q - 1)
  }

  lemma {:induction false} LineStartShape(s: string, q: nat)
    requires q <= |s|
    ensures var p := LineStart(s, q);
      && p <= q
      && (forall i :: p <= i < q ==> NotTerminator(s[i]))
      && (p == 0 || !NotTerminator(s[p - 1]))
  {
    if q > 0 && NotTerminator(s[q - 1]) {
      LineStartShape(s, q - 1);
    }
  }

  /** `LineStart` looks only at what comes before `q`. */
  lemma {:induction false} LineStartPrefix(s: string, t: string, q: nat)
    requires q <= |s|
    ensures LineStart(s + t, q) == LineStart(s, q)
  {
    if q > 0 && NotTerminator(s[q - 1]) {
      LineStartPrefix(s, t, q - 1);
    }
  }

  /** The name shown for `senderName`: group 1 of the match, or the whole name when it does not match. */
  function ShortName(name: string): string {
    var q := LastSpace(name);
    if q.Some? && HandleTail(name[q.value..]) then
      LineStartShape(name, q.value);
      name[LineStart(name, q.value)..q.value]
    else name
  }

  /** Some suffix of the name is a ` (@user:server.tld)` handle. */
  predicate HasHandle(name: string) {
    exists q :: 0 <= q < |name| && HandleTail(name[q..])
  }

  /** A handle tail holds no white space after its leading blank. */
  lemma HandleTailSpaces(t: string)
    requires HandleTail(t)
    ensures IsJsSpace(t[0]) && forall i :: 1 <= i < |t| ==> !IsJsSpace(t[i])
  {
    var body := t[3..|t| - 1];
    var k := IndexOf(body, ':');
    forall i | 1 <= i < |t| ensures !IsJsSpace(t[i]) {
      if 3 <= i < |t| - 1 {
        var j := i - 3;
        assert t[i] == body[j];
        if j < k {
          assert body[j] == body[..k][j];
        } else if j > k {
          assert body[j] == body[k + 1..][j - k - 1];
        }
      } else if i < 3 {
        assert t[i] == t[..3][i];
      }
    }
  }

  /**
   * When the name ends in a handle starting at `q`, the shown name is what
   * precedes the handle on its last line.
   */
  lemma ShortNameOfHandle(name: string, q: nat)
    requires q < |name| && HandleTail(name[q..])
    ensures ShortName(name) == name[LineStart(name, q)..q]
  {
    var t := name[q..];
    HandleTailSpaces(t);
    assert forall i :: q < i < |name| ==> name[i] == t[i - q];
    LastSpaceAt(name, q);
  }

  /** A name with no handle suffix is shown whole. */
  lemma ShortNameWithoutHandle(name: string)
    requires !HasHandle(name)
    ensures ShortName(name) == name
  {
  }

  /** The handle ` (@user:server)` built from its parts. */
  function Handle(user: string, server: string): string {
    " (@" + user + ":" + server + ")"
  }

  lemma HandleIsTail(user: string, server: string)
    requires |user| > 0 && AllSuffixChars(user) && ServerPart(server)
    ensures HandleTail(Handle(user, server))
  {
    var t := Handle(user, server);
    var body := user + ":" + server;
    assert t == " (@" + body + ")";
    assert t[3..|t| - 1] == body;
    assert ':' !in user;
    assert body[..|user|] == user && body[|user|] == ':' && body[|user| + 1..] == server;
    assert IndexOf(body, ':') == |user|;
  }

  /**
   * Appending a handle to a one-line name and matching it again gives the
   * name back.
   */
  lemma ShortNameRoundTrip(n: string, user: string, server: string)
    requires |user| > 0 && AllSuffixChars(user) && ServerPart(server)
    requires forall i :: 0 <= i < |n| ==> NotTerminator(n[i])
    ensures ShortName(n + Handle(user, server)) == n
  {
    var t := Handle(user, server);
    var name := n + t;
    HandleIsTail(user, server);
    assert name[|n|..] == t;
    ShortNameOfHandle(name, |n|);
    LineStartPrefix(n, t, |n|);
    LineStartShape(n, |n|);
    assert name[..|n|] == n;
  }

  // ---------------------------------------------------------------------
  // Day-file listings

  /** The `YYYY-MM-DD` shape of a day name. */
  const DayPattern: string := "dddd-dd-dd"

  /** `/^[0-9]{4}-[0-9]{2}-[0-9]{2}\.ext$/.test(f)`, for an extension without the letter `d`. */
  predicate IsDayFile(f: string, ext: string) {
    DigitPattern(f, DayPattern + ext)
  }

  /** `f.replace(/\.ext$/, '')`. */
  function StripSuffix(f: string, ext: string): string {
    if EndsWith(f, ext) then f[..|f| - |ext|] else f
  }

  function StripAll(fs: seq<string>, ext: string): (r: seq<string>)
    ensures |r| == |fs| && forall i :: 0 <= i < |fs| ==> r[i] == StripSuffix(fs[i], ext)
  {
    if fs == [] then [] else [StripSuffix(fs[0], ext)] + StripAll(fs[1..], ext)
  }

  /** `readdirSync(dir).filter(day-file test).map(strip extension).sort()`. */
  function DayNames(listing: seq<string>, ext: string): seq<string> {
    Sort(StripAll(Filter(listing, f => IsDayFile(f, ext)), ext))
  }

  /** A pattern without placeholders matches only itself. */
  lemma {:induction false} DigitPatternLiteral(s: string, p: string)
    requires 'd' !in p
    ensures DigitPattern(s, p) <==> s == p
  {
    if s != [] && |s| == |p| {
      assert 'd' !in p[1..];
      DigitPatternLiteral(s[1..], p[1..]);
      assert s == [s[0]] + s[1..] && p == [p[0]] + p[1..];
    }
  }

  /** Matching a pattern made of two parts is matching each part in turn. */
  lemma {:induction false} DigitPatternConcat(s: string, p: string, q: string)
    ensures DigitPattern(s, p + q) <==> |s| == |p| + |q| && DigitPattern(s[..|p|], p) && DigitPattern(s[|p|..], q)
  {
    if p != [] && |s| == |p| + |q| {
      assert (p + q)[1..] == p[1..] + q && (p + q)[0] == p[0];
      DigitPatternConcat(s[1..], p[1..], q);
      assert s[1..][..|p| - 1] == s[..|p|][1..];
      assert s[1..][|p| - 1..] == s[|p|..];
    } else if p == [] {
      assert p + q == q && s[|p|..] == s;
    }
  }

  /** A day file is a day name followed by the extension. */
  lemma IsDayFileParts(f: string, ext: string)
    requires 'd' !in ext
    ensures IsDayFile(f, ext) <==> |f| >= 10 && DigitPattern(f[..10], DayPattern) && f[10..] == ext
  {
    DigitPatternConcat(f, DayPattern, ext);
    if |f| >= 10 {
      DigitPatternLiteral(f[10..], ext);
    }
  }

  /**
   * The day names of a listing, ascending: exactly the names `d` of shape
   * `YYYY-MM-DD` for which `d + ext` is listed.
   */
  lemma DayNamesSpec(listing: seq<string>, ext: string)
    requires 'd' !in ext
    ensures Sorted(DayNames(listing, ext))
    ensures forall d :: d in DayNames(listing, ext) <==> DigitPattern(d, DayPattern) && d + ext in listing
  {
    var files := Filter(listing, f => IsDayFile(f, ext));
    var names := StripAll(files, ext);
    var r := Sort(names);
    assert forall d :: d in r <==> d in multiset(r);
    forall d ensures d in r <==> DigitPattern(d, DayPattern) && d + ext in listing {
      if d in names {
        var i :| 0 <= i < |names| && names[i] == d;
        var f := files[i];
        assert f in files;
        IsDayFileParts(f, ext);
        assert f == f[..10] + f[10..];
        assert EndsWith(f, ext);
      }
      if DigitPattern(d, DayPattern) && d + ext in listing {
        var f := d + ext;
        assert f[..10] == d && f[10..] == ext;
        IsDayFileParts(f, ext);
        assert f in files;
        var i :| 0 <= i < |files| && files[i] == f;
        assert EndsWith(f, ext);
        assert names[i] == d;
      }
    }
  }

  // ---------------------------------------------------------------------
  // Listings without repeated names

  /** No name occurs twice, as in a directory listing. */
  ghost predicate NoRepeats(s: seq<string>) {
    forall x :: multiset(s)[x] <= 1
  }

  lemma NoRepeatsApart(s: seq<string>, i: nat, j: nat)
    requires NoRepeats(s) && i < j < |s|
    ensures s[i] != s[j]
  {
    assert s == s[..j] + s[j..];
    assert s[i] in s[..j] && s[j] in s[j..];
    assert multiset(s)[s[j]] == multiset(s[..j])[s[j]] + multiset(s[j..])[s[j]];
  }

  lemma {:induction false} FilterCount(s: seq<string>, p: string -> bool, x: string)
    ensures multiset(Filter(s, p))[x] <= multiset(s)[x]
  {
    if s != [] {
      FilterCount(s[1..], p, x);
      assert s == [s[0]] + s[1..];
    }
  }

  // ---------------------------------------------------------------------
  // Values and mappings shared by the renderers

  /** `'' + x` of a possibly missing string. */
  function Shown(x: Option<string>): string {
    if x.Some? then x.value else "undefined"
  }

  /** `xs.map(f)` over the first `n` elements, where `f` may throw: the first throw ends it. */
  function MapUpTo<T, U>(f: (T, nat) -> Result<U, Thrown>, xs: seq<T>, n: nat): Result<seq<U>, Thrown>
    requires n <= |xs|
  {
    if n == 0 then Ok([])
    else
      var ys :- MapUpTo(f, xs, n - 1);
      var y :- f(xs[n - 1], n - 1);
      Ok(ys + [y])
  }

  /** Element `k`, among the first `n`, is the first on which `f` throws. */
  predicate FirstFailure<T, U>(f: (T, nat) -> Result<U, Thrown>, xs: seq<T>, k: nat, n: nat)
    requires n <= |xs|
  {
    && k < n && f(xs[k], k).Err?
    && forall i :: 0 <= i < k ==> f(xs[i], i).Ok?
  }

  /**
   * The results are `f` applied to each element at its position; the
   * mapping fails exactly when `f` fails somewhere, with the first failure.
   */
  lemma {:induction false} MapUpToSpec<T, U>(f: (T, nat) -> Result<U, Thrown>, xs: seq<T>, n: nat)
    requires n <= |xs|
    ensures var r := MapUpTo(f, xs, n);
      && (r.Ok? <==> forall i :: 0 <= i < n ==> f(xs[i], i).Ok?)
      && (r.Ok? ==> |r.value| == n && forall i :: 0 <= i < n ==> r.value[i] == f(xs[i], i).value)
      && (r.Err? ==> exists k: nat :: FirstFailure(f, xs, k, n) && r.error == f(xs[k], k).error)
  {
    if n > 0 {
      MapUpToSpec(f, xs, n - 1);
      var prev := MapUpTo(f, xs, n - 1);
      var last := f(xs[n - 1], n - 1);
      if prev.Err? {
        var k: nat :| FirstFailure(f, xs, k, n - 1) && prev.error == f(xs[k], k).error;
        assert FirstFailure(f, xs, k, n);
      } else if last.Err? {
        assert FirstFailure(f, xs, n - 1, n);
      } else {
        var ys := prev.value + [last.value];
        assert MapUpTo(f, xs, n) == Ok(ys);
        assert forall i :: 0 <= i < n - 1 ==> ys[i] == prev.value[i];
      }
    }
  }
}
