/**
 * `render-sql.js`: bringing a room's full-text search index up to date.
 * A watermark (`<room>-last-added.json`) names the last day file indexed
 * and either the ids it held or, for logs without ids, its last `ts`. Each
 * run indexes the day files from the watermark file on, drops what the
 * watermark says was indexed already, skips deleted messages, and moves
 * the watermark to the last file it read.
 */
module SearchIndex {
  import opened Common
  import opened Strings
  import opened Events
  import opened DayStore
  import opened Edits

  /**
   * The parsed watermark: the file, and `ids` or `ts`. An id that was
   * missing on its event is stored as JSON `null`, here `None`.
   */
  datatype Watermark = Watermark(file: string, ids: Option<seq<Option<string>>>, ts: Option<int>)

  /** One row of the `search` table: sender, time, position in the day, content. */
  datatype Part = Part(senderName: string, ts: int, idx: nat, content: Content)

  const JsonSuffix: string := ".json"

  predicate Candidate(lastFile: string, f: string) {
    EndsWith(f, JsonSuffix) && LessEq(lastFile, f)
  }

  /**
   * `readdirSync(jsonDir).sort().filter(f => f.endsWith('.json') && f >= last.file)`:
   * exactly the `.json` files from the watermark file on, in ascending order.
   */
  function ToAdd(listing: seq<string>, lastFile: string): (r: seq<string>)
    ensures Sorted(r)
    ensures forall f :: f in r <==> f in listing && Candidate(lastFile, f)
  {
    var sorted := Sort(listing);
    assert forall f :: f in sorted <==> f in multiset(sorted);
    FilterSorted(sorted, f => Candidate(lastFile, f));
    Filter(sorted, f => Candidate(lastFile, f))
  }

  lemma {:induction false} FilterSorted(s: seq<string>, p: string -> bool)
    requires Sorted(s)
    ensures Sorted(Filter(s, p))
  {
    if s != [] {
      FilterSorted(s[1..], p);
      var t := Filter(s[1..], p);
      forall j | 0 <= j < |t| ensures LessEq(s[0], t[j]) {
        assert t[j] in s[1..];
      }
    }
  }

  /**
   * `seen.has(l.id)`: a line without an id is never seen, as its
   * `undefined` is not the `null` stored for it.
   */
  predicate Seen(ids: seq<Option<string>>, id: Option<string>) {
    id.Some? && id in ids
  }

  /**
   * Whether a line of the watermark file is new: its id was not recorded,
   * or, without ids, it is later than the recorded `ts` (never, when no
   * `ts` was recorded either).
   */
  predicate Fresh(last: Watermark, e: Event) {
    if last.ids.Some? then !Seen(last.ids.value, e.id)
    else last.ts.Some? && e.ts > last.ts.value
  }

  /** A line reaches the inner loop: every line of a later file, the fresh ones of the watermark file. */
  predicate Selected(atMark: bool, last: Watermark, e: Event) {
    !atMark || Fresh(last, e)
  }

  /** A selected line that is indexed: its content has a `msgtype`. */
  predicate Indexable(atMark: bool, last: Watermark, e: Event) {
    Selected(atMark, last, e) && e.content.Content? && e.content.msgtype.Some?
  }

  /**
   * The rows one day file contributes from its first `n` lines (after
   * `applyModifications`), each with its position as `idx`. A selected
   * line whose content is missing throws on `content.msgtype`.
   */
  function FileParts(lines: seq<Event>, atMark: bool, last: Watermark, n: nat): (r: Result<seq<Part>, Thrown>)
    requires n <= |lines|
    ensures r.Ok? ==> forall m :: 0 <= m < |r.value| ==>
      var p := r.value[m];
      && p.idx < n && Indexable(atMark, last, lines[p.idx])
      && p == Part(lines[p.idx].senderName, lines[p.idx].ts, p.idx, lines[p.idx].content)
    ensures r.Ok? ==> forall m, m' :: 0 <= m < m' < |r.value| ==> r.value[m].idx < r.value[m'].idx
  {
    if n == 0 then Ok([])
    else
      var before := FileParts(lines, atMark, last, n - 1);
      if before.Err? then Err(before.error)
      else
        var l := lines[n - 1];
        if !Selected(atMark, last, l) then before
        else if l.content.Undefined? then Err(TypeError("msgtype"))
        else if l.content.msgtype.None? then before
        else
          Ok(before.value + [Part(l.senderName, l.ts, n - 1, l.content)])
  }

  /** The rows stop short only at a selected line without content, which throws. */
  lemma {:induction false} FilePartsThrows(lines: seq<Event>, atMark: bool, last: Watermark, n: nat)
    requires n <= |lines|
    ensures FileParts(lines, atMark, last, n).Err? <==>
      exists i :: 0 <= i < n && Selected(atMark, last, lines[i]) && lines[i].content.Undefined?
  {
    if n > 0 {
      FilePartsThrows(lines, atMark, last, n - 1);
    }
  }

  /** Every selected line with a `msgtype` is indexed. */
  lemma {:induction false} FilePartsComplete(lines: seq<Event>, atMark: bool, last: Watermark, n: nat)
    requires n <= |lines|
    ensures var r := FileParts(lines, atMark, last, n);
      r.Ok? ==> forall i :: 0 <= i < n && Indexable(atMark, last, lines[i]) ==>
        exists m :: 0 <= m < |r.value| && r.value[m].idx == i
  {
    if n > 0 {
      FilePartsComplete(lines, atMark, last, n - 1);
      var before := FileParts(lines, atMark, last, n - 1);
      var r := FileParts(lines, atMark, last, n);
      if r.Ok? {
        assert before.Ok?;
        var b := before.value;
        assert b <= r.value;
        forall i | 0 <= i < n && Indexable(atMark, last, lines[i])
          ensures exists m :: 0 <= m < |r.value| && r.value[m].idx == i
        {
          if i < n - 1 {
            ExtendedKeepsIdx(b, r.value, i);
          } else {
            assert r.value == b + [Part(lines[i].senderName, lines[i].ts, i, lines[i].content)];
            assert r.value[|b|].idx == i;
          }
        }
      }
    }
  }

  /** Rows appended after others keep the earlier rows' line indices. */
  lemma ExtendedKeepsIdx(b: seq<Part>, r: seq<Part>, i: nat)
    requires b <= r
    requires exists m :: 0 <= m < |b| && b[m].idx == i
    ensures exists m :: 0 <= m < |r| && r[m].idx == i
  {
    var m :| 0 <= m < |b| && b[m].idx == i;
    assert r[m] == b[m];
  }

  /** `applyModifications`, then the rows of what it returns. */
  function FileRows(lines: seq<Event>, atMark: bool, last: Watermark): Result<seq<Part>, Thrown> {
    var after :- Applied(lines);
    FileParts(after, atMark, last, |after|)
  }

  /** What a room's scan has gathered: the rows, and the last file read with its raw lines. */
  datatype Scan = Scan(parts: seq<Part>, finalFile: Option<string>, finalLines: seq<Event>)

  /**
   * The loop over `toAdd`: each file is read, remembered as the final one,
   * passed through `applyModifications` and its rows appended.
   */
  function ScanFiles(toAdd: seq<string>, read: map<string, seq<Event>>, last: Watermark, n: nat): (r: Result<Scan, Thrown>)
    requires n <= |toAdd| && forall f :: f in toAdd ==> f in read
    ensures r.Ok? && n > 0 ==> r.value.finalFile == Some(toAdd[n - 1]) && r.value.finalLines == read[toAdd[n - 1]]
    ensures r.Ok? && n == 0 ==> r.value == Scan([], None, [])
  {
    if n == 0 then Ok(Scan([], None, []))
    else
      var before :- ScanFiles(toAdd, read, last, n - 1);
      var file := toAdd[n - 1];
      var parts :- FileRows(read[file], file == last.file, last);
      Ok(Scan(before.parts + parts, Some(file), read[file]))
  }

  /** The record written as the new watermark after indexing. */
  function NextWatermark(file: string, lines: seq<Event>): (w: Watermark)
    ensures w.file == file
    ensures |lines| == 0 ==> w.ids == Some([])
    ensures |lines| > 0 && lines[0].id.Some? ==> w.ids.Some? && |w.ids.value| == |lines| && forall i :: 0 <= i < |lines| ==> w.ids.value[i] == lines[i].id
    ensures |lines| > 0 && lines[0].id.None? ==> w.ids.None? && w.ts == Some(lines[|lines| - 1].ts)
  {
    if |lines| == 0 then Watermark(file, Some([]), None)
    else if lines[0].id.Some? then Watermark(file, Some(IdList(lines)), None)
    else Watermark(file, None, Some(lines[|lines| - 1].ts))
  }

  /** `lines.map(l => l.id)` */
  function IdList(lines: seq<Event>): (r: seq<Option<string>>)
    ensures |r| == |lines| && forall i :: 0 <= i < |lines| ==> r[i] == lines[i].id
  {
    if lines == [] then [] else [lines[0].id] + IdList(lines[1..])
  }

  /** How one room's pass ends. */
  datatype Outcome =
    | NoDatabase                                // no database and none could be made: the room is skipped
    | NothingNew                                // no row to add: the watermark is left as it is
    | Indexed(parts: seq<Part>, next: Watermark) // rows inserted and the watermark rewritten

  /** One room's pass, given whether its database exists and the parsed watermark, if any. */
  function IndexRoomSpec(listing: seq<string>, read: map<string, seq<Event>>, dbExists: bool, last: Option<Watermark>): (r: Result<Outcome, Thrown>)
    requires forall f :: f in listing && EndsWith(f, JsonSuffix) ==> f in read
    ensures r == Ok(NoDatabase) <==> !dbExists
    ensures dbExists && last.None? ==> r.Err?
    ensures r.Ok? && r.value.Indexed? ==> |r.value.parts| > 0
    ensures r.Ok? && r.value.Indexed? ==> last.Some?
    ensures r.Ok? && r.value.Indexed? && last.Some? ==>
      var toAdd := ToAdd(listing, last.value.file);
      |toAdd| > 0 && toAdd[|toAdd| - 1] in read && r.value.next == NextWatermark(toAdd[|toAdd| - 1], read[toAdd[|toAdd| - 1]])
  {
    if !dbExists then Ok(NoDatabase)
    else if last.None? then Err(Error("expected to find the last-added file"))
    else
      var toAdd := ToAdd(listing, last.value.file);
      var scan :- ScanFiles(toAdd, read, last.value, |toAdd|);
      if |scan.parts| == 0 then Ok(NothingNew)
      else Ok(Indexed(scan.parts, NextWatermark(scan.finalFile.value, scan.finalLines)))
  }

  /** The per-room loop body of `render-sql.js`. */
  method IndexRoom(listing: seq<string>, read: map<string, seq<Event>>, dbExists: bool, last: Option<Watermark>)
    returns (r: Result<Outcome, Thrown>)
    requires forall f :: f in listing && EndsWith(f, JsonSuffix) ==> f in read
    ensures r == IndexRoomSpec(listing, read, dbExists, last)
  {
    if !dbExists {
      return Ok(NoDatabase);
    }
    if last.None? {
      return Err(Error("expected to find the last-added file"));
    }
    var mark := last.value;
    var toAdd := ToAdd(listing, mark.file);
    var parts: seq<Part> := [];
    var finalName: Option<string> := None;
    var finalLines: seq<Event> := [];
    assert forall f :: f in toAdd ==> f in read;
    for k := 0 to |toAdd|
      invariant ScanFiles(toAdd, read, mark, k) == Ok(Scan(parts, finalName, finalLines))
    {
      var file := toAdd[k];
      assert file in toAdd;
      ScanStep(toAdd, read, mark, k, Scan(parts, finalName, finalLines));
      var lines := read[file];
      finalName := Some(file);
      finalLines := lines;
      var fileParts := ScanFile(lines, file == mark.file, mark);
      if fileParts.Err? {
        ScanFailsOnward(toAdd, read, mark, k + 1, |toAdd|);
        return Err(fileParts.error);
      }
      parts := parts + fileParts.value;
    }
    if |parts| == 0 {
      return Ok(NothingNew);
    }
    r := Ok(Indexed(parts, NextWatermark(finalName.value, finalLines)));
  }

  /** One file of the loop: `applyModifications`, then its rows. */
  method ScanFile(lines: seq<Event>, atMark: bool, mark: Watermark) returns (r: Result<seq<Part>, Thrown>)
    ensures r == FileRows(lines, atMark, mark)
  {
    var modified := ApplyModifications(lines);
    if modified.Err? {
      return Err(modified.error);
    }
    r := CollectParts(modified.value, atMark, mark);
  }

  /** One more file extends the scan by that file's rows, or fails with them. */
  lemma ScanStep(toAdd: seq<string>, read: map<string, seq<Event>>, last: Watermark, k: nat, before: Scan)
    requires k < |toAdd| && (forall f :: f in toAdd ==> f in read) && ScanFiles(toAdd, read, last, k) == Ok(before)
    ensures var file := toAdd[k];
      var rows := FileRows(read[file], file == last.file, last);
      ScanFiles(toAdd, read, last, k + 1)
        == if rows.Err? then Err(rows.error) else Ok(Scan(before.parts + rows.value, Some(file), read[file]))
  {
  }

  lemma {:induction false} ScanFailsOnward(toAdd: seq<string>, read: map<string, seq<Event>>, last: Watermark, n: nat, m: nat)
    requires n <= m <= |toAdd| && (forall f :: f in toAdd ==> f in read) && ScanFiles(toAdd, read, last, n).Err?
    ensures ScanFiles(toAdd, read, last, m) == ScanFiles(toAdd, read, last, n)
    decreases m
  {
    if m > n {
      ScanFailsOnward(toAdd, read, last, n, m - 1);
    }
  }

  /** The filter on the watermark file and the inner loop over `[idx, line]` pairs. */
  method CollectParts(lines: seq<Event>, atMark: bool, last: Watermark) returns (r: Result<seq<Part>, Thrown>)
    ensures r == FileParts(lines, atMark, last, |lines|)
  {
    var parts: seq<Part> := [];
    for idx := 0 to |lines|
      invariant FileParts(lines, atMark, last, idx) == Ok(parts)
    {
      var line := lines[idx];
      if Selected(atMark, last, line) {
        if line.content.Undefined? {
          FilePartsFailOnward(lines, atMark, last, idx + 1, |lines|);
          return Err(TypeError("msgtype"));
        }
        if line.content.msgtype.Some? {
          parts := parts + [Part(line.senderName, line.ts, idx, line.content)];
        }
      }
    }
    r := Ok(parts);
  }

  lemma {:induction false} FilePartsFailOnward(lines: seq<Event>, atMark: bool, last: Watermark, n: nat, m: nat)
    requires n <= m <= |lines| && FileParts(lines, atMark, last, n).Err?
    ensures FileParts(lines, atMark, last, m) == FileParts(lines, atMark, last, n)
    decreases m
  {
    if m > n {
      FilePartsFailOnward(lines, atMark, last, n, m - 1);
    }
  }

  /** `applyModifications` keeps each surviving line's id and `ts`. */
  lemma {:induction false} ProjectKeepsIdAndTs(events: seq<Event>, st: EditState, n: nat, m: nat)
    requires n <= |events| && Sized(st, |events|) && m < |Project(events, st, n)|
    ensures exists k :: 0 <= k < n && Project(events, st, n)[m].id == events[k].id && Project(events, st, n)[m].ts == events[k].ts
  {
    var prev := Project(events, st, n - 1);
    if m < |prev| {
      ProjectKeepsIdAndTs(events, st, n - 1, m);
      var k :| 0 <= k < n - 1 && prev[m].id == events[k].id && prev[m].ts == events[k].ts;
      assert Project(events, st, n)[m] == prev[m];
    } else {
      assert Project(events, st, n)[m].id == events[n - 1].id;
    }
  }

  lemma AppliedKeepsIdAndTs(events: seq<Event>, m: nat)
    requires Applied(events).Ok? && m < |Applied(events).value|
    ensures exists k :: 0 <= k < |events| && Applied(events).value[m].id == events[k].id && Applied(events).value[m].ts == events[k].ts
  {
    ProjectKeepsIdAndTs(events, Edits.Edits(events, |events|).value, |events|, m);
  }

  lemma {:induction false} NoneSelected(lines: seq<Event>, last: Watermark, n: nat)
    requires n <= |lines| && forall i :: 0 <= i < n ==> !Fresh(last, lines[i])
    ensures FileParts(lines, true, last, n) == Ok([])
  {
    if n > 0 {
      NoneSelected(lines, last, n - 1);
    }
  }

  /**
   * The new watermark covers its own file: indexing that file again, as
   * the next run does when no later file has appeared, yields no row. This
   * holds when every line has an id, or when none has and the lines are in
   * `ts` order, as the ingester and the IRC importer write them.
   */
  lemma RescanFindsNothing(file: string, lines: seq<Event>)
    requires Applied(lines).Ok?
    requires (forall i :: 0 <= i < |lines| ==> lines[i].id.Some?) || (|lines| > 0 && lines[0].id.None? && SortedByTs(lines))
    ensures var after := Applied(lines).value;
      FileParts(after, true, NextWatermark(file, lines), |after|) == Ok([])
  {
    var after := Applied(lines).value;
    var w := NextWatermark(file, lines);
    forall m | 0 <= m < |after| ensures !Fresh(w, after[m]) {
      AppliedKeepsIdAndTs(lines, m);
      var k :| 0 <= k < |lines| && after[m].id == lines[k].id && after[m].ts == lines[k].ts;
      if lines[0].id.Some? {
        assert w.ids.value[k] == lines[k].id;
      }
    }
    NoneSelected(after, w, |after|);
  }
}
