/**
 * The per-room ingestion of `run.mjs`: fetched room events are filtered
 * into the message buffer (resolving sender names on the way), the buffer
 * is drained into day files by `saveDays`, forward pagination stops when
 * the `end` token stops changing, and the resume cursor is rewritten only
 * when it moved.
 */
module Ingest {
  import opened Common
  import opened Strings
  import opened Events
  import opened Protocol
  import opened SenderNames
  import opened DayStore
  import opened DayBuffer
  import opened Seqs

  /** The buffered messages and the sender-name map (`null` until first needed). */
  datatype Ingested = Ingested(messages: seq<Event>, names: Option<map<string, string>>)

  /**
   * `resolveMemberEvents(events)`: every join event, in order, goes through
   * the name-map update rule.
   */
  function ResolveJoins(names: map<string, string>, evs: seq<RoomEvent>): (r: Result<map<string, string>, Thrown>)
    decreases |evs|
  {
    if evs == [] then Ok(names)
    else
      var next :- if IsJoin(evs[0]) then ResolveMember(names, evs[0]) else Ok(names);
      ResolveJoins(next, evs[1..])
  }

  /** Resolving joins never forgets a known user. */
  lemma {:induction false} ResolveJoinsGrows(names: map<string, string>, evs: seq<RoomEvent>)
    ensures ResolveJoins(names, evs).Ok? ==> names.Keys <= ResolveJoins(names, evs).value.Keys
    decreases |evs|
  {
    if evs != [] {
      var next := if IsJoin(evs[0]) then ResolveMember(names, evs[0]) else Ok(names);
      if next.Ok? {
        assert ResolveJoins(next.value, evs[1..]) == ResolveJoins(names, evs);
        ResolveJoinsGrows(next.value, evs[1..]);
      }
    }
  }

  /** A message event the archive keeps: `m.room.message` with msgtype `m.text` or `m.emote`. */
  predicate Archivable(e: RoomEvent) {
    e.Message? && e.content.Content? && IsTextOrEmote(e.content.msgtype)
  }

  /**
   * The body of `addEvents`' loop for `events[i]`, where `fetched` is what
   * `getMembers` returns (`null` on failure). The name map is fetched on the
   * first archivable message and caught up with the joins before it.
   */
  function Step(fetched: Option<map<string, string>>, events: seq<RoomEvent>, i: nat, st: Ingested): Result<Ingested, Thrown>
    requires i < |events|
  {
    match events[i]
    case Message(id, sender, ts, content) =>
      if content.Undefined? then Err(TypeError("msgtype of undefined"))
      else if !IsTextOrEmote(content.msgtype) then Ok(st)
      else
        var names :- if st.names.None? then ResolveJoins(fetched.GetOr(map[]), events[..i]) else Ok(st.names.value);
        var senderName :- if sender in names then Ok(names[sender]) else GuessName(sender);
        Ok(Ingested(st.messages + [Event(Some(id), ts, senderName, sender, content)], Some(names)))
    case Member(_, _, _) =>
      if st.names.None? then Ok(st)
      else
        var names :- ResolveMember(st.names.value, events[i]);
        Ok(Ingested(st.messages, Some(names)))
    case Other(_, eventType) =>
      Err(Error("unexpected event type " + eventType))
  }

  /** The loop of `addEvents` over the first `n` events. */
  function AddAll(fetched: Option<map<string, string>>, events: seq<RoomEvent>, n: nat, st: Ingested): Result<Ingested, Thrown>
    requires n <= |events|
  {
    if n == 0 then Ok(st)
    else
      var before :- AddAll(fetched, events, n - 1, st);
      Step(fetched, events, n - 1, before)
  }

  /** The archivable events among `evs`, in order. */
  function ArchivableIn(evs: seq<RoomEvent>): (r: seq<RoomEvent>)
    ensures |r| <= |evs|
    ensures forall j :: 0 <= j < |r| ==> Archivable(r[j])
  {
    if evs == [] then []
    else ArchivableIn(evs[..|evs| - 1]) + (if Archivable(evs[|evs| - 1]) then [evs[|evs| - 1]] else [])
  }

  /** `ArchivableIn` keeps every archivable event and nothing else. */
  lemma {:induction false} ArchivableMembers(evs: seq<RoomEvent>)
    ensures forall e :: e in ArchivableIn(evs) <==> e in evs && Archivable(e)
  {
    if evs != [] {
      ArchivableMembers(evs[..|evs| - 1]);
      assert evs == evs[..|evs| - 1] + [evs[|evs| - 1]];
    }
  }

  /** The stored record `m` was built from the message event `e`. */
  predicate BuiltFrom(m: Event, e: RoomEvent)
    requires e.Message?
  {
    m.id == Some(e.eventId) && m.ts == e.originServerTs && m.senderId == e.sender && m.content == e.content
  }

  /**
   * `addEvents` appends exactly the archivable messages, in order, each
   * recorded with its event id, timestamp, sender and content; nothing
   * already buffered changes.
   */
  lemma {:induction false} AddAllBuffers(fetched: Option<map<string, string>>, events: seq<RoomEvent>, n: nat, st: Ingested)
    requires n <= |events|
    ensures AddAll(fetched, events, n, st).Ok? ==>
      var b := AddAll(fetched, events, n, st).value;
      var a := ArchivableIn(events[..n]);
      && |b.messages| == |st.messages| + |a|
      && b.messages[..|st.messages|] == st.messages
      && forall j :: 0 <= j < |a| ==> BuiltFrom(b.messages[|st.messages| + j], a[j])
  {
    AddAllBuffered(fetched, events, n, st);
    ArchivableUpToIn(events, n);
  }

  /** `ArchivableIn(events[..n])`, counted up to `n`. */
  function ArchivableUpTo(events: seq<RoomEvent>, n: nat): seq<RoomEvent>
    requires n <= |events|
  {
    if n == 0 then [] else ArchivableUpTo(events, n - 1) + (if Archivable(events[n - 1]) then [events[n - 1]] else [])
  }

  lemma {:induction false} ArchivableUpToIn(events: seq<RoomEvent>, n: nat)
    requires n <= |events|
    ensures ArchivableUpTo(events, n) == ArchivableIn(events[..n])
  {
    if n > 0 {
      ArchivableUpToIn(events, n - 1);
      assert events[..n][..n - 1] == events[..n - 1];
    }
  }

  /** `m1` is `m0` followed by the stored forms of the archivable messages `a`. */
  predicate Buffered(m0: seq<Event>, m1: seq<Event>, a: seq<RoomEvent>) {
    && |m1| == |m0| + |a| && m1[..|m0|] == m0
    && forall j :: 0 <= j < |a| ==> Archivable(a[j]) && BuiltFrom(m1[|m0| + j], a[j])
  }

  lemma {:induction false} AddAllBuffered(fetched: Option<map<string, string>>, events: seq<RoomEvent>, n: nat, st: Ingested)
    requires n <= |events|
    ensures AddAll(fetched, events, n, st).Ok? ==>
      Buffered(st.messages, AddAll(fetched, events, n, st).value.messages, ArchivableUpTo(events, n))
  {
    if n > 0 && AddAll(fetched, events, n, st).Ok? {
      AddAllBuffered(fetched, events, n - 1, st);
      var before := AddAll(fetched, events, n - 1, st).value;
      StepMessages(fetched, events, n - 1, before);
      BufferedStep(st.messages, before.messages, AddAll(fetched, events, n, st).value.messages, ArchivableUpTo(events, n - 1), events[n - 1]);
    }
  }

  /** Appending the stored form of one more archivable message extends the buffered prefix by that message. */
  lemma BufferedStep(m0: seq<Event>, m1: seq<Event>, m2: seq<Event>, a: seq<RoomEvent>, e: RoomEvent)
    requires Buffered(m0, m1, a)
    requires Archivable(e) ==> |m2| == |m1| + 1 && m2[..|m1|] == m1 && BuiltFrom(m2[|m1|], e)
    requires !Archivable(e) ==> m2 == m1
    ensures Buffered(m0, m2, a + (if Archivable(e) then [e] else []))
  {
    if Archivable(e) {
      assert m2[..|m0|] == m1[..|m0|];
      forall k | |m0| <= k < |m1| ensures m2[k] == m1[k] {
        assert m2[..|m1|][k] == m1[k];
      }
    }
  }

  /** One event of `addEvents` appends the stored form of an archivable message and otherwise leaves the buffer alone. */
  lemma StepMessages(fetched: Option<map<string, string>>, events: seq<RoomEvent>, i: nat, st: Ingested)
    requires i < |events| && Step(fetched, events, i, st).Ok?
    ensures var b := Step(fetched, events, i, st).value;
      if Archivable(events[i]) then
        && |b.messages| == |st.messages| + 1
        && b.messages[..|st.messages|] == st.messages
        && BuiltFrom(b.messages[|st.messages|], events[i])
      else b.messages == st.messages
  {
    var b := Step(fetched, events, i, st).value;
    if Archivable(events[i]) {
      assert b.messages[..|st.messages|] == st.messages;
    }
  }

  /**
   * `addEvents` fails on any event type other than messages and member
   * events, and on a message without content.
   */
  lemma {:induction false} AddAllKnownTypes(fetched: Option<map<string, string>>, events: seq<RoomEvent>, n: nat, st: Ingested)
    requires n <= |events|
    ensures AddAll(fetched, events, n, st).Ok? ==>
      forall k :: 0 <= k < n ==> !events[k].Other? && (events[k].Message? ==> events[k].content.Content?)
  {
    if n > 0 && AddAll(fetched, events, n, st).Ok? {
      AddAllKnownTypes(fetched, events, n - 1, st);
    }
  }

  /**
   * The name map is fetched lazily: it stays `null` exactly while no
   * archivable message has been met, and once present it only gains users.
   */
  lemma {:induction false} AddAllLazyNames(fetched: Option<map<string, string>>, events: seq<RoomEvent>, n: nat, st: Ingested)
    requires n <= |events|
    ensures AddAll(fetched, events, n, st).Ok? ==>
      var b := AddAll(fetched, events, n, st).value;
      && (b.names.None? <==> st.names.None? && ArchivableIn(events[..n]) == [])
      && (st.names.Some? ==> st.names.value.Keys <= b.names.value.Keys)
  {
    if n > 0 && AddAll(fetched, events, n, st).Ok? {
      AddAllLazyNames(fetched, events, n - 1, st);
      var before := AddAll(fetched, events, n - 1, st).value;
      assert events[..n][..n - 1] == events[..n - 1];
      assert events[..n][n - 1] == events[n - 1];
      if Archivable(events[n - 1]) && before.names.None? {
        ResolveJoinsGrows(fetched.GetOr(map[]), events[..n - 1]);
      }
    }
  }

  /** Once a step throws, `addEvents` throws. */
  lemma {:induction false} AddAllFailsOnward(fetched: Option<map<string, string>>, events: seq<RoomEvent>, n: nat, m: nat, st: Ingested)
    requires n <= m <= |events| && AddAll(fetched, events, n, st).Err?
    ensures AddAll(fetched, events, m, st).Err?
    decreases m - n
  {
    if n < m {
      assert AddAll(fetched, events, n + 1, st).Err?;
      AddAllFailsOnward(fetched, events, n + 1, m, st);
    }
  }

  /** `hasMore`: another page follows only if `end` is present and moved. */
  predicate HasMore(prev: Option<string>, end: Option<string>) {
    end.Some? && prev != end
  }

  /** How forward pagination ended. */
  datatype PageOutcome =
    | Finished              // the `end` token stopped moving
    | Stalled(error: Thrown) // a non-empty chunk came with a token that stopped moving
    | Exhausted             // the responses given ran out while more were announced

  /** The chunks handed to `addEvents`, in order, and how the loop ended. */
  datatype PageRun = PageRun(chunks: seq<seq<RoomEvent>>, outcome: PageOutcome)

  /** The pagination loop of `run.mjs` over the successive responses `pages`. */
  function Paginate(token: Option<string>, pages: seq<Page>): (r: PageRun)
    ensures |r.chunks| <= |pages|
    decreases |pages|
  {
    if pages == [] then PageRun([], Exhausted)
    else
      var p := pages[0];
      if !HasMore(token, p.end) then
        if |p.chunk| > 0 then PageRun([], Stalled(Error("got nonempty chunk, but pagination token didn't change!")))
        else PageRun([p.chunk], Finished)
      else
        var rest := Paginate(p.end, pages[1..]);
        PageRun([p.chunk] + rest.chunks, rest.outcome)
  }

  /** The token the `j`-th request is made with. */
  function TokenBefore(token: Option<string>, pages: seq<Page>, j: nat): Option<string>
    requires j <= |pages|
  {
    if j == 0 then token else pages[j - 1].end
  }

  /**
   * Pagination stops at the first response whose `end` is missing or equal
   * to the token it was requested with, however short the pages before it;
   * every chunk before that is passed on whole.
   */
  lemma {:induction false} PaginateStopsAtUnchangedToken(token: Option<string>, pages: seq<Page>)
    ensures var r := Paginate(token, pages);
      var n := |r.chunks|;
      && (forall j :: 0 <= j < n && j < |pages| ==> r.chunks[j] == pages[j].chunk)
      && (r.outcome.Stalled? ==> n < |pages|)
      && (r.outcome == Finished ==> n <= |pages|)
      && (forall j :: 0 <= j < n && (j < n - 1 || r.outcome.Stalled?) ==> HasMore(TokenBefore(token, pages, j), pages[j].end))
      && (r.outcome == Finished ==> n >= 1 && !HasMore(TokenBefore(token, pages, n - 1), pages[n - 1].end) && pages[n - 1].chunk == [])
      && (r.outcome.Stalled? ==> !HasMore(TokenBefore(token, pages, n), pages[n].end) && pages[n].chunk != [])
      && (r.outcome == Exhausted ==> n == |pages| && forall j :: 0 <= j < n ==> HasMore(TokenBefore(token, pages, j), pages[j].end))
    decreases |pages|
  {
    if pages != [] && HasMore(token, pages[0].end) {
      PaginateStopsAtUnchangedToken(pages[0].end, pages[1..]);
      forall j | 1 <= j <= |pages| - 1 ensures TokenBefore(token, pages, j + 1) == TokenBefore(pages[0].end, pages[1..], j) {
      }
      var rest := Paginate(pages[0].end, pages[1..]);
      forall j | 0 <= j < |rest.chunks| + 1 && j < |pages|
        ensures (Paginate(token, pages).chunks)[j] == pages[j].chunk
      {
        if j > 0 {
          assert pages[1..][j - 1] == pages[j];
        }
      }
    }
  }

  /** `Paginate` from the `i`-th response on, unfolded once. */
  lemma PaginateAt(token: Option<string>, pages: seq<Page>, i: nat)
    requires i < |pages|
    ensures var p := pages[i];
      Paginate(token, pages[i..]) ==
        if !HasMore(token, p.end) then
          if |p.chunk| > 0 then PageRun([], Stalled(Error("got nonempty chunk, but pagination token didn't change!")))
          else PageRun([p.chunk], Finished)
        else
          var rest := Paginate(p.end, pages[i + 1..]);
          PageRun([p.chunk] + rest.chunks, rest.outcome)
  {
    assert pages[i..][1..] == pages[i + 1..];
  }

  /**
   * One response of the pagination loop, as the loop sees it: either it
   * stalls, with nothing more passed on, or its chunk is passed on and the
   * rest of the run follows from the next token.
   */
  lemma PageStep(next: Option<string>, pages: seq<Page>, i: nat, run: PageRun, fed: seq<seq<RoomEvent>>, todo: PageRun)
    requires i < |pages| && todo == Paginate(next, pages[i..])
    requires run.chunks == fed + todo.chunks && run.outcome == todo.outcome
    ensures var p := pages[i];
      var more := HasMore(next, p.end);
      if !more && |p.chunk| > 0 then
        run.chunks == fed && run.outcome == Stalled(Error("got nonempty chunk, but pagination token didn't change!"))
      else
        var todo' := if more then Paginate(p.end, pages[i + 1..]) else PageRun([], Finished);
        run.chunks == fed + [p.chunk] + todo'.chunks && run.outcome == todo'.outcome
  {
    PaginateAt(next, pages, i);
    var p := pages[i];
    if !HasMore(next, p.end) && |p.chunk| > 0 {
      assert fed + [] == fed;
    } else {
      var todo' := if HasMore(next, p.end) then Paginate(p.end, pages[i + 1..]) else PageRun([], Finished);
      ConsAssoc(fed, p.chunk, todo'.chunks);
    }
  }

  /**
   * The cursor write after a room is done: the cursor file is written,
   * with `latest`, iff there was none or what it held (trimmed) differs.
   */
  function CursorWrite(stored: Option<string>, latest: string): (w: Option<string>)
    ensures w.Some? <==> stored.None? || Trim(stored.value) != latest
    ensures w.Some? ==> w.value == latest
  {
    if stored.None? || Trim(stored.value) != latest then Some(latest) else None
  }

  /** After a room is done its cursor names the latest event either way. */
  lemma CursorNamesLatest(stored: Option<string>, latest: string)
    requires Trim(latest) == latest
    ensures var file := if CursorWrite(stored, latest).Some? then CursorWrite(stored, latest) else stored;
      file.Some? && Trim(file.value) == latest
  {
  }

  /** A room's buffer, its day files, its name map and the latest event id seen. */
  datatype RoomState = RoomState(messages: seq<Event>, files: Files, names: Option<map<string, string>>, latest: string)

  /**
   * `addEvents(events)`: the loop, then, for a non-empty batch, the latest
   * event id moves to its last event and complete days are saved.
   */
  function AddEventsSpec(fetched: Option<map<string, string>>, events: seq<RoomEvent>, s: RoomState): Result<RoomState, Thrown> {
    var b :- AddAll(fetched, events, |events|, Ingested(s.messages, s.names));
    if |events| > 0 then
      var (m, f) := SaveAll(b.messages, s.files, false);
      Ok(RoomState(m, f, b.names, events[|events| - 1].eventId))
    else Ok(RoomState(b.messages, s.files, b.names, s.latest))
  }

  /** `addEvents` over the first `n` chunks in turn, stopping at the first throw. */
  function FeedPrefix(fetched: Option<map<string, string>>, chunks: seq<seq<RoomEvent>>, n: nat, s: RoomState): Result<RoomState, Thrown>
    requires n <= |chunks|
  {
    if n == 0 then Ok(s)
    else
      var before :- FeedPrefix(fetched, chunks, n - 1, s);
      AddEventsSpec(fetched, chunks[n - 1], before)
  }

  /** `addEvents` over each chunk in turn, stopping at the first throw. */
  function FeedAll(fetched: Option<map<string, string>>, chunks: seq<seq<RoomEvent>>, s: RoomState): Result<RoomState, Thrown> {
    FeedPrefix(fetched, chunks, |chunks|, s)
  }

  /** Feeding the first `n` chunks looks at nothing after them. */
  lemma {:induction false} FeedPrefixAgree(fetched: Option<map<string, string>>, a: seq<seq<RoomEvent>>, b: seq<seq<RoomEvent>>, n: nat, s: RoomState)
    requires n <= |a| && n <= |b| && a[..n] == b[..n]
    ensures FeedPrefix(fetched, a, n, s) == FeedPrefix(fetched, b, n, s)
  {
    if n > 0 {
      assert a[..n - 1] == a[..n][..n - 1] && b[..n - 1] == b[..n][..n - 1];
      assert a[n - 1] == a[..n][n - 1] && b[n - 1] == b[..n][n - 1];
      FeedPrefixAgree(fetched, a, b, n - 1, s);
    }
  }

  /** Once a chunk throws, so does feeding any longer prefix. */
  lemma {:induction false} FeedPrefixFailsOnward(fetched: Option<map<string, string>>, chunks: seq<seq<RoomEvent>>, n: nat, m: nat, s: RoomState)
    requires n <= m <= |chunks| && FeedPrefix(fetched, chunks, n, s).Err?
    ensures FeedPrefix(fetched, chunks, m, s).Err?
    decreases m
  {
    if n < m {
      FeedPrefixFailsOnward(fetched, chunks, n, m - 1, s);
    }
  }

  /** A throw while feeding `a` is a throw while feeding `a` followed by anything. */
  lemma FeedAllFailsOnward(fetched: Option<map<string, string>>, a: seq<seq<RoomEvent>>, b: seq<seq<RoomEvent>>, s: RoomState)
    requires FeedAll(fetched, a, s).Err?
    ensures FeedAll(fetched, a + b, s).Err?
  {
    assert (a + b)[..|a|] == a[..|a|];
    FeedPrefixAgree(fetched, a, a + b, |a|, s);
    FeedPrefixFailsOnward(fetched, a + b, |a|, |a + b|, s);
  }

  /** Feeding one more chunk is one more `addEvents` after the others. */
  lemma FeedAllSnoc(fetched: Option<map<string, string>>, a: seq<seq<RoomEvent>>, c: seq<RoomEvent>, s: RoomState)
    ensures FeedAll(fetched, a + [c], s) ==
      (match FeedAll(fetched, a, s)
       case Ok(before) => AddEventsSpec(fetched, c, before)
       case Err(x) => Err(x))
  {
    assert (a + [c])[..|a|] == a[..|a|];
    FeedPrefixAgree(fetched, a, a + [c], |a|, s);
  }

  /**
   * What the pagination loop returns, given the run of responses and what
   * feeding its chunks produced: the throw of `addEvents` if it threw,
   * otherwise how pagination ended, with the state left by the last chunk.
   */
  predicate FetchResult(run: PageRun, fed: Result<RoomState, Thrown>, r: Result<PageOutcome, Thrown>, s: RoomState) {
    && (r.Ok? <==> fed.Ok?)
    && (r.Ok? ==> r.value == run.outcome && s == fed.value)
  }

  /** The loop ran out of responses or reached an unmoved token after feeding every chunk. */
  lemma FetchDone(run: PageRun, fed: seq<seq<RoomEvent>>, todo: PageRun, all: Result<RoomState, Thrown>, r: Result<PageOutcome, Thrown>, s: RoomState)
    requires run.chunks == fed + todo.chunks && run.outcome == todo.outcome
    requires todo.chunks == [] && all == Ok(s) && r == Ok(todo.outcome)
    ensures run.chunks == fed
    ensures FetchResult(run, all, r, s)
  {
    assert fed + [] == fed;
  }

  /** The per-room state that `run.mjs` keeps in closure variables and on disk. */
  class RoomLog {
    var messages: seq<Event>
    var files: Files
    var nameMap: Option<map<string, string>>
    var latestEventId: string

    function State(): RoomState
      reads this
    {
      RoomState(messages, files, nameMap, latestEventId)
    }

    constructor(files0: Files, names0: Option<map<string, string>>, latest: string)
      ensures messages == [] && files == files0 && nameMap == names0 && latestEventId == latest
    {
      messages := [];
      files := files0;
      nameMap := names0;
      latestEventId := latest;
    }

    /** `saveDays(roomDir, messages, forceLast)`. */
    method SaveDays(forceLast: bool)
      modifies this
      ensures (messages, files) == SaveAll(old(messages), old(files), forceLast)
      ensures nameMap == old(nameMap) && latestEventId == old(latestEventId)
    {
      while Pending(messages, forceLast)
        invariant SaveAll(messages, files, forceLast) == SaveAll(old(messages), old(files), forceLast)
        invariant nameMap == old(nameMap) && latestEventId == old(latestEventId)
        decreases |messages|
      {
        SaveFirstDay(forceLast);
      }
    }

    /** One pass of the outer loop of `saveDays`: the first event's day is merged into its file. */
    method SaveFirstDay(forceLast: bool)
      requires Pending(messages, forceLast)
      modifies this
      ensures SaveAll(messages, files, forceLast) == SaveAll(old(messages), old(files), forceLast)
      ensures |messages| < |old(messages)|
      ensures nameMap == old(nameMap) && latestEventId == old(latestEventId)
    {
      var day := DayOf(messages[0]);
      SaveAllPass(messages, files, forceLast);
      var forDay := ShiftDay(day);
      files := files[day := Merge(Stored(files, day), forDay)];
    }

    /**
     * The inner loop of `saveDays`: shifts off the buffer the events that
     * fall on `day`, up to the first that does not.
     */
    method ShiftDay(day: string) returns (forDay: seq<Event>)
      requires |messages| > 0 && DayOf(messages[0]) == day
      modifies this
      ensures var k := SameDayPrefix(old(messages), day);
        forDay == old(messages)[..k] && messages == old(messages)[k..] && k > 0
      ensures files == old(files) && nameMap == old(nameMap) && latestEventId == old(latestEventId)
    {
      forDay := [];
      while |messages| > 0 && DayOf(messages[0]) == day
        invariant forDay + messages == old(messages)
        invariant SameDayPrefix(old(messages), day) == |forDay| + SameDayPrefix(messages, day)
        invariant files == old(files) && nameMap == old(nameMap) && latestEventId == old(latestEventId)
        decreases |messages|
      {
        SameDayPrefixStep(messages, day);
        ShiftOne(forDay, messages);
        forDay := forDay + [messages[0]];
        messages := messages[1..];
      }
      SplitAt(forDay, messages, old(messages));
      SameDayPrefixStep(old(messages), day);
    }

    /** `resolveMemberEvent(event)` on the loaded name map. */
    method ResolveMemberEvent(e: RoomEvent) returns (r: Result<(), Thrown>)
      requires e.Member? && nameMap.Some?
      modifies this
      ensures r.Ok? <==> ResolveMember(old(nameMap).value, e).Ok?
      ensures r.Ok? ==> nameMap == Some(ResolveMember(old(nameMap).value, e).value)
      ensures messages == old(messages) && files == old(files) && latestEventId == old(latestEventId)
    {
      var next := ResolveMember(nameMap.value, e);
      if next.Err? {
        return Err(next.error);
      }
      nameMap := Some(next.value);
      r := Ok(());
    }

    /** `resolveMemberEvents(events)`. */
    method ResolveMemberEvents(evs: seq<RoomEvent>) returns (r: Result<(), Thrown>)
      requires nameMap.Some?
      modifies this
      ensures r.Ok? <==> ResolveJoins(old(nameMap).value, evs).Ok?
      ensures r.Ok? ==> nameMap == Some(ResolveJoins(old(nameMap).value, evs).value)
      ensures messages == old(messages) && files == old(files) && latestEventId == old(latestEventId)
    {
      var i := 0;
      while i < |evs|
        invariant 0 <= i <= |evs| && nameMap.Some?
        invariant ResolveJoins(nameMap.value, evs[i..]) == ResolveJoins(old(nameMap).value, evs)
        invariant messages == old(messages) && files == old(files) && latestEventId == old(latestEventId)
      {
        assert evs[i..][1..] == evs[i + 1..];
        if IsJoin(evs[i]) {
          var step := ResolveMemberEvent(evs[i]);
          if step.Err? {
            return step;
          }
        }
        i := i + 1;
      }
      r := Ok(());
    }

    /** One turn of the loop in `addEvents`, on `events[i]`. */
    method AddEvent(events: seq<RoomEvent>, i: nat, fetched: Option<map<string, string>>) returns (r: Result<(), Thrown>)
      requires i < |events|
      modifies this
      ensures var spec := Step(fetched, events, i, Ingested(old(messages), old(nameMap)));
        && (r.Ok? <==> spec.Ok?)
        && (r.Ok? ==> Ingested(messages, nameMap) == spec.value)
      ensures files == old(files) && latestEventId == old(latestEventId)
    {
      var e := events[i];
      match e {
        case Message(id, sender, ts, content) =>
          if content.Undefined? {
            return Err(TypeError("msgtype of undefined"));
          }
          if IsTextOrEmote(content.msgtype) {
            if nameMap.None? {
              nameMap := Some(fetched.GetOr(map[]));
              var resolved := ResolveMemberEvents(events[..i]);
              if resolved.Err? {
                return resolved;
              }
            }
            var senderName: string;
            if sender in nameMap.value {
              senderName := nameMap.value[sender];
            } else {
              var guess := GuessName(sender);
              if guess.Err? {
                return Err(guess.error);
              }
              senderName := guess.value;
            }
            messages := messages + [Event(Some(id), ts, senderName, sender, content)];
          }
        case Member(_, _, _) =>
          if nameMap.Some? {
            var resolved := ResolveMemberEvent(e);
            if resolved.Err? {
              return resolved;
            }
          }
        case Other(_, eventType) =>
          return Err(Error("unexpected event type " + eventType));
      }
      r := Ok(());
    }

    /**
     * `addEvents(events)`, where `fetched` is what `getMembers` would
     * return if the name map has to be loaded.
     */
    method AddEvents(events: seq<RoomEvent>, fetched: Option<map<string, string>>) returns (r: Result<(), Thrown>)
      modifies this
      ensures var spec := AddEventsSpec(fetched, events, old(State()));
        (r.Ok? <==> spec.Ok?) && (r.Ok? ==> State() == spec.value)
    {
      ghost var st0 := Ingested(messages, nameMap);
      var i := 0;
      while i < |events|
        invariant 0 <= i <= |events|
        invariant AddAll(fetched, events, i, st0) == Ok(Ingested(messages, nameMap))
        invariant files == old(files) && latestEventId == old(latestEventId)
        decreases |events| - i
      {
        r := AddEvent(events, i, fetched);
        if r.Err? {
          AddAllFailsOnward(fetched, events, i + 1, |events|, st0);
          return;
        }
        i := i + 1;
      }
      if |events| > 0 {
        latestEventId := events[|events| - 1].eventId;
        SaveDays(false);
      }
      r := Ok(());
    }

    /** `addEvents(chunk)` as one more step of `FeedAll`. */
    method FeedChunk(chunk: seq<RoomEvent>, fetched: Option<map<string, string>>, ghost before: seq<seq<RoomEvent>>, ghost after: seq<seq<RoomEvent>>, ghost s0: RoomState)
      returns (r: Result<(), Thrown>)
      requires FeedAll(fetched, before, s0) == Ok(State())
      modifies this
      ensures r.Ok? ==> FeedAll(fetched, before + [chunk], s0) == Ok(State())
      ensures r.Err? ==> FeedAll(fetched, before + [chunk] + after, s0).Err?
    {
      FeedAllSnoc(fetched, before, chunk, s0);
      r := AddEvents(chunk, fetched);
      if r.Err? {
        FeedAllFailsOnward(fetched, before + [chunk], after, s0);
      }
    }

    /**
     * One response of the pagination loop: the stalled-token throw, or the
     * chunk fed to `addEvents`. `stop` is what the loop returns when it
     * ends here; otherwise the chunk joins `fed`, `more` says whether the
     * loop goes on and `todo` is what is left of the run.
     */
    method FetchPage(p: Page, next: Option<string>, fetched: Option<map<string, string>>,
                     ghost pages: seq<Page>, ghost i: nat, ghost run: PageRun, ghost fed: seq<seq<RoomEvent>>, ghost s0: RoomState)
      returns (more: bool, stop: Option<Result<PageOutcome, Thrown>>, ghost todo: PageRun)
      requires i < |pages| && p == pages[i]
      requires FeedAll(fetched, fed, s0) == Ok(State())
      requires var rest := Paginate(next, pages[i..]); run.chunks == fed + rest.chunks && run.outcome == rest.outcome
      modifies this
      ensures stop.Some? ==> FetchResult(run, FeedAll(fetched, run.chunks, s0), stop.value, State())
      ensures stop.None? ==> FeedAll(fetched, fed + [p.chunk], s0) == Ok(State())
      ensures stop.None? ==> run.chunks == fed + [p.chunk] + todo.chunks && run.outcome == todo.outcome
      ensures stop.None? ==> more == HasMore(next, p.end)
      ensures stop.None? && more ==> todo == Paginate(p.end, pages[i + 1..])
      ensures stop.None? && !more ==> todo == PageRun([], Finished)
    {
      PageStep(next, pages, i, run, fed, Paginate(next, pages[i..]));
      more := HasMore(next, p.end);
      todo := if more then Paginate(p.end, pages[i + 1..]) else PageRun([], Finished);
      if !more && |p.chunk| > 0 {
        return more, Some(Ok(Stalled(Error("got nonempty chunk, but pagination token didn't change!")))), todo;
      }
      var added := FeedChunk(p.chunk, fetched, fed, todo.chunks, s0);
      if added.Err? {
        return more, Some(Err(added.error)), todo;
      }
      stop := None;
    }

    /**
     * The pagination loop: fetch pages from `token` until `hasMore` fails,
     * feeding each chunk to `addEvents`. `pages` are the successive
     * responses of `/messages`. An `Ok` outcome other than `Finished` is
     * the stalled-token throw, or the responses running out.
     */
    method FetchForward(token: Option<string>, pages: seq<Page>, fetched: Option<map<string, string>>)
      returns (r: Result<PageOutcome, Thrown>)
      modifies this
      ensures var run := Paginate(token, pages);
        FetchResult(run, FeedAll(fetched, run.chunks, old(State())), r, State())
    {
      ghost var s0 := State();
      var hasMore := true;
      var next := token;
      var i := 0;
      ghost var run := Paginate(token, pages);
      ghost var fedChunks: seq<seq<RoomEvent>> := [];
      ghost var todo := run;
      while hasMore && i < |pages|
        invariant 0 <= i <= |pages|
        invariant FeedAll(fetched, fedChunks, s0) == Ok(State())
        invariant run.chunks == fedChunks + todo.chunks && run.outcome == todo.outcome
        invariant hasMore ==> todo == Paginate(next, pages[i..])
        invariant !hasMore ==> todo == PageRun([], Finished)
        decreases |pages| - i, hasMore
      {
        var p := pages[i];
        var more, stop;
        more, stop, todo := FetchPage(p, next, fetched, pages, i, run, fedChunks, s0);
        if stop.Some? {
          return stop.value;
        }
        hasMore := more;
        next := p.end;
        fedChunks := fedChunks + [p.chunk];
        i := i + 1;
      }
      r := Ok(if hasMore then Exhausted else Finished);
      FetchDone(run, fedChunks, todo, FeedAll(fetched, fedChunks, s0), r, State());
    }

    /**
     * The end of a room: `saveDays(roomDir, messages, true)` flushes the
     * buffer, then the cursor is written if it moved.
     */
    method Finish(storedCursor: Option<string>) returns (cursorWritten: Option<string>)
      modifies this
      ensures messages == [] && files == SaveAll(old(messages), old(files), true).1
      ensures cursorWritten == CursorWrite(storedCursor, latestEventId) && latestEventId == old(latestEventId)
    {
      SaveDays(true);
      SaveAllLeaves(old(messages), old(files), true);
      cursorWritten := CursorWrite(storedCursor, latestEventId);
    }
  }
}
