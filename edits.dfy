/**
 * `utils.js`: folding `m.replace` edits into the events they edit
 * (`applyModifications`) and the room directory name used by the
 * renderers (`sanitizeRoomName`).
 *
 * `applyModifications` copies the array but not the event objects, so an
 * edit overwrites the `content` of the object at the target's position and
 * a later replacer sees that overwritten content. The model keeps one
 * content per original position (`EditState.contents`) and one flag per
 * position for the `null`s written into the copy (`EditState.live`).
 */
module Edits {
  import opened Common
  import opened Events

  const ReplaceRel: string := "m.replace"

  /** `event.content?.['m.relates_to']?.rel_type === 'm.replace'`. */
  predicate IsReplace(e: Event) {
    e.content.Content? && e.content.relatesTo.Some? && e.content.relatesTo.value.relType == Some(ReplaceRel)
  }

  /**
   * `new Map(events.map((e, i) => [e.id, i]))`: every id, an absent one
   * included, mapped to the position of its last occurrence.
   */
  function IdMap(events: seq<Event>): (ids: map<Option<string>, nat>)
    ensures forall id :: id in ids ==> ids[id] < |events| && events[ids[id]].id == id
    ensures forall id, k :: id in ids && ids[id] < k < |events| ==> events[k].id != id
    decreases |events|
  {
    if events == [] then map[]
    else
      var n := |events| - 1;
      var prev := IdMap(events[..n]);
      assert forall k :: 0 <= k < n ==> events[..n][k] == events[k];
      prev[events[n].id := n]
  }

  /** Every event's id is a key of the map. */
  lemma {:induction false} IdMapCovers(events: seq<Event>, k: nat)
    requires k < |events|
    ensures events[k].id in IdMap(events)
    decreases |events|
  {
    var n := |events| - 1;
    if k < n {
      IdMapCovers(events[..n], k);
      assert events[..n][k] == events[k];
    }
  }

  /** The content table and the `null` marks of the copy, position by position. */
  datatype EditState = EditState(contents: seq<Content>, live: seq<bool>)

  predicate Sized(st: EditState, n: nat) {
    |st.contents| == n && |st.live| == n
  }

  /** Before the loop: every event's own content, no `null` yet. */
  function Start(events: seq<Event>): (st: EditState)
    ensures Sized(st, |events|)
    ensures forall k :: 0 <= k < |events| ==> st.contents[k] == events[k].content && st.live[k]
  {
    EditState(seq(|events|, k requires 0 <= k < |events| => events[k].content), seq(|events|, _ => true))
  }

  /**
   * One iteration for the replacer at position `j`: read its current
   * content's relation, look the target up, overwrite the target's content
   * with `m.new_content` and null the replacer. Reading a property of a
   * missing content or relation, or setting one on a nulled slot, throws.
   */
  function ReplaceStep(ids: map<Option<string>, nat>, st: EditState, j: nat): (r: Result<EditState, Thrown>)
    requires Sized(st, |st.live|) && j < |st.live|
    requires forall id :: id in ids ==> ids[id] < |st.live|
    ensures r.Ok? ==> Sized(r.value, |st.live|)
  {
    var c := st.contents[j];
    if c.Undefined? then Err(TypeError("m.relates_to"))
    else if c.relatesTo.None? then Err(TypeError("event_id"))
    else
      var target := c.relatesTo.value.eventId;
      if target !in ids then Ok(st)
      else
        var t := ids[target];
        if !st.live[t] then Err(TypeError("content"))
        else Ok(EditState(st.contents[t := c.newContent], st.live[j := false]))
  }

  /** The loop of `applyModifications` over the first `n` positions. */
  function Edits(events: seq<Event>, n: nat): (r: Result<EditState, Thrown>)
    requires n <= |events|
    ensures r.Ok? ==> Sized(r.value, |events|)
  {
    if n == 0 then Ok(Start(events))
    else
      var st :- Edits(events, n - 1);
      if IsReplace(events[n - 1]) then ReplaceStep(IdMap(events), st, n - 1) else Ok(st)
  }

  lemma {:induction false} EditsFailOnward(events: seq<Event>, n: nat, m: nat)
    requires n <= m <= |events| && Edits(events, n).Err?
    ensures Edits(events, m) == Edits(events, n)
    decreases m
  {
    if m > n {
      EditsFailOnward(events, n, m - 1);
    }
  }

  /** `clone.filter(e => e != null)` over the first `n` positions. */
  function Project(events: seq<Event>, st: EditState, n: nat): (out: seq<Event>)
    requires n <= |events| && Sized(st, |events|)
    ensures |out| <= n
  {
    if n == 0 then []
    else
      Project(events, st, n - 1)
      + (if st.live[n - 1] then [events[n - 1].(content := st.contents[n - 1])] else [])
  }

  /** What `applyModifications(events)` returns, or what it throws. */
  function Applied(events: seq<Event>): Result<seq<Event>, Thrown> {
    var st :- Edits(events, |events|);
    Ok(Project(events, st, |events|))
  }

  /** Without a replacer the loop changes nothing. */
  lemma {:induction false} EditsWithoutReplacers(events: seq<Event>, n: nat)
    requires n <= |events|
    requires forall k :: 0 <= k < |events| ==> !IsReplace(events[k])
    ensures Edits(events, n) == Ok(Start(events))
  {
    if n > 0 {
      EditsWithoutReplacers(events, n - 1);
    }
  }

  lemma {:induction false} ProjectStart(events: seq<Event>, n: nat)
    requires n <= |events|
    ensures Project(events, Start(events), n) == events[..n]
  {
    if n > 0 {
      ProjectStart(events, n - 1);
      assert events[n - 1].(content := events[n - 1].content) == events[n - 1];
      assert events[..n] == events[..n - 1] + [events[n - 1]];
    }
  }

  /**
   * With no replacer among the events the result is the input itself, so
   * the early `return events` agrees with the general path.
   */
  lemma NoReplacersUnchanged(events: seq<Event>)
    requires forall k :: 0 <= k < |events| ==> !IsReplace(events[k])
    ensures Applied(events) == Ok(events)
  {
    EditsWithoutReplacers(events, |events|);
    ProjectStart(events, |events|);
    assert events[..|events|] == events;
  }

  /** `applyModifications`, with the copy and the shared contents as arrays. */
  method ApplyModifications(events: seq<Event>) returns (r: Result<seq<Event>, Thrown>)
    ensures r == Applied(events)
  {
    var anyReplace := AnyReplace(events);
    if !anyReplace {
      NoReplacersUnchanged(events);
      return Ok(events);
    }
    var contents := new Content[|events|](k requires 0 <= k < |events| => events[k].content);
    var live := new bool[|events|](_ => true);
    assert EditState(contents[..], live[..]) == Start(events);
    var ids := BuildIds(events);
    var failed := RunEdits(events, ids, contents, live);
    if failed.Some? {
      return Err(failed.value);
    }
    var out := ProjectLive(events, contents, live);
    r := Ok(out);
  }

  /** `replacing.length !== 0` */
  method AnyReplace(events: seq<Event>) returns (b: bool)
    ensures !b <==> forall k :: 0 <= k < |events| ==> !IsReplace(events[k])
  {
    b := false;
    for i := 0 to |events|
      invariant !b <==> forall k :: 0 <= k < i ==> !IsReplace(events[k])
    {
      if IsReplace(events[i]) {
        b := true;
      }
    }
  }

  /** `new Map(events.map((e, i) => [e.id, i]))` */
  method BuildIds(events: seq<Event>) returns (ids: map<Option<string>, nat>)
    ensures ids == IdMap(events)
  {
    ids := map[];
    for i := 0 to |events|
      invariant ids == IdMap(events[..i])
    {
      assert events[..i + 1][..i] == events[..i];
      ids := ids[events[i].id := i];
    }
    assert events[..|events|] == events;
  }

  /** The `for` loop over the replacers; `failed` is what it throws. */
  method RunEdits(events: seq<Event>, ids: map<Option<string>, nat>, contents: array<Content>, live: array<bool>)
    returns (failed: Option<Thrown>)
    requires ids == IdMap(events)
    requires contents.Length == live.Length == |events|
    requires Edits(events, 0) == Ok(EditState(contents[..], live[..]))
    modifies contents, live
    ensures failed.None? <==> Edits(events, |events|).Ok?
    ensures failed.None? ==> Edits(events, |events|) == Ok(EditState(contents[..], live[..]))
    ensures failed.Some? ==> Edits(events, |events|) == Err(failed.value)
  {
    for i := 0 to |events|
      invariant Edits(events, i) == Ok(EditState(contents[..], live[..]))
    {
      failed := EditAt(events, ids, contents, live, i);
      if failed.Some? {
        EditsFailOnward(events, i + 1, |events|);
        return;
      }
    }
    failed := None;
  }

  /** The iteration at position `i`: only a replacer does anything. */
  method EditAt(events: seq<Event>, ids: map<Option<string>, nat>, contents: array<Content>, live: array<bool>, i: nat)
    returns (failed: Option<Thrown>)
    requires ids == IdMap(events)
    requires contents.Length == live.Length == |events| && i < |events|
    requires Edits(events, i) == Ok(EditState(contents[..], live[..]))
    modifies contents, live
    ensures failed.None? ==> Edits(events, i + 1) == Ok(EditState(contents[..], live[..]))
    ensures failed.Some? ==> Edits(events, i + 1) == Err(failed.value)
  {
    failed := None;
    if IsReplace(events[i]) {
      failed := ApplyOne(ids, contents, live, i);
    }
  }

  /** One replacer: `clone[targetIndex].content = …; clone[replacerIndex] = null`. */
  method ApplyOne(ids: map<Option<string>, nat>, contents: array<Content>, live: array<bool>, j: nat)
    returns (failed: Option<Thrown>)
    requires contents.Length == live.Length && j < live.Length
    requires forall id :: id in ids ==> ids[id] < live.Length
    modifies contents, live
    ensures var step := ReplaceStep(ids, old(EditState(contents[..], live[..])), j);
      && (failed.None? <==> step.Ok?)
      && (failed.None? ==> EditState(contents[..], live[..]) == step.value)
      && (failed.Some? ==> step == Err(failed.value))
  {
    var c := contents[j];
    if c.Undefined? {
      return Some(TypeError("m.relates_to"));
    }
    if c.relatesTo.None? {
      return Some(TypeError("event_id"));
    }
    var target := c.relatesTo.value.eventId;
    if target in ids {
      var t := ids[target];
      if !live[t] {
        return Some(TypeError("content"));
      }
      contents[t] := c.newContent;
      live[j] := false;
    }
    failed := None;
  }

  /** `clone.filter(e => e != null)` */
  method ProjectLive(events: seq<Event>, contents: array<Content>, live: array<bool>) returns (out: seq<Event>)
    requires contents.Length == live.Length == |events|
    ensures out == Project(events, EditState(contents[..], live[..]), |events|)
  {
    var st := EditState(contents[..], live[..]);
    out := [];
    for k := 0 to |events|
      invariant out == Project(events, st, k)
    {
      if live[k] {
        out := out + [events[k].(content := contents[k])];
      }
    }
  }

  /** The position the replacer at `j` resolves to, if it is a replacer and its target is present. */
  function TargetOf(events: seq<Event>, j: nat): (t: Option<nat>)
    requires j < |events|
    ensures t.Some? ==> IsReplace(events[j]) && t.value < |events|
    ensures t.Some? ==> events[t.value].id == events[j].content.relatesTo.value.eventId
  {
    if IsReplace(events[j]) then
      var ids := IdMap(events);
      var target := events[j].content.relatesTo.value.eventId;
      if target in ids then Some(ids[target]) else None
    else None
  }

  predicate Found(events: seq<Event>, j: nat)
    requires j < |events|
  {
    TargetOf(events, j).Some?
  }

  /** No replacer edits a replacer (an edit of an edit, itself included). */
  predicate NoEditOfEdit(events: seq<Event>) {
    forall j :: 0 <= j < |events| && Found(events, j) ==> !IsReplace(events[TargetOf(events, j).value])
  }

  /**
   * The content at position `k` once the replacers before `n` have been
   * applied, each overwriting what the earlier ones left.
   */
  function EditedContent(events: seq<Event>, n: nat, k: nat): Content
    requires n <= |events| && k < |events|
  {
    if n == 0 then events[k].content
    else if TargetOf(events, n - 1) == Some(k) then events[n - 1].content.newContent
    else EditedContent(events, n - 1, k)
  }

  /** An event nothing before `n` targets keeps its own content. */
  lemma {:induction false} UntargetedUnedited(events: seq<Event>, n: nat, k: nat)
    requires n <= |events| && k < |events|
    requires forall j :: 0 <= j < n ==> TargetOf(events, j) != Some(k)
    ensures EditedContent(events, n, k) == events[k].content
  {
    if n > 0 {
      UntargetedUnedited(events, n - 1, k);
    }
  }

  /** When several replacers target one event, the last of them decides its content. */
  lemma {:induction false} LastReplacerWins(events: seq<Event>, n: nat, k: nat, j: nat)
    requires j < n <= |events| && k < |events|
    requires TargetOf(events, j) == Some(k)
    requires forall j' :: j < j' < n ==> TargetOf(events, j') != Some(k)
    ensures EditedContent(events, n, k) == events[j].content.newContent
  {
    if n - 1 > j {
      LastReplacerWins(events, n - 1, k, j);
    }
  }

  lemma ReplacerUnedited(events: seq<Event>, n: nat, k: nat)
    requires NoEditOfEdit(events) && n <= |events| && k < |events| && IsReplace(events[k])
    ensures EditedContent(events, n, k) == events[k].content
  {
    forall j | 0 <= j < n ensures TargetOf(events, j) != Some(k) {
      if Found(events, j) {
        assert !IsReplace(events[TargetOf(events, j).value]);
      }
    }
    UntargetedUnedited(events, n, k);
  }

  /**
   * The state after `n` positions, as it is without edits of edits: each
   * content is its edited content and exactly the replacers before `n`
   * whose target was found are nulled.
   */
  predicate EditedUpTo(events: seq<Event>, n: nat, st: EditState)
    requires n <= |events|
  {
    && Sized(st, |events|)
    && (forall k :: 0 <= k < |events| ==> st.contents[k] == EditedContent(events, n, k))
    && (forall k :: 0 <= k < |events| ==> (st.live[k] <==> !(k < n && Found(events, k))))
  }

  lemma EditedStep(events: seq<Event>, j: nat, st: EditState)
    requires NoEditOfEdit(events) && j < |events| && EditedUpTo(events, j, st)
    ensures IsReplace(events[j]) ==> ReplaceStep(IdMap(events), st, j).Ok? && EditedUpTo(events, j + 1, ReplaceStep(IdMap(events), st, j).value)
    ensures !IsReplace(events[j]) ==> EditedUpTo(events, j + 1, st)
  {
    match TargetOf(events, j) {
      case None =>
        EditedSkip(events, j, st);
        if IsReplace(events[j]) {
          ReplaceStepMissing(events, j, st);
        }
      case Some(t) =>
        EditedApply(events, j, t, st);
    }
  }

  /** A replacer whose target is not in the room changes nothing. */
  lemma ReplaceStepMissing(events: seq<Event>, j: nat, st: EditState)
    requires NoEditOfEdit(events) && j < |events| && EditedUpTo(events, j, st)
    requires IsReplace(events[j]) && TargetOf(events, j).None?
    ensures ReplaceStep(IdMap(events), st, j) == Ok(st)
  {
    ReplacerUnedited(events, j, j);
    assert events[j].content.relatesTo.value.eventId !in IdMap(events);
  }

  /** A position that is not a found replacer leaves the state as it is. */
  lemma EditedSkip(events: seq<Event>, j: nat, st: EditState)
    requires j < |events| && EditedUpTo(events, j, st) && TargetOf(events, j).None?
    ensures EditedUpTo(events, j + 1, st)
  {
    forall k | 0 <= k < |events| ensures st.contents[k] == EditedContent(events, j + 1, k) {
    }
  }

  /** A found replacer overwrites its target's content and is nulled. */
  lemma EditedApply(events: seq<Event>, j: nat, t: nat, st: EditState)
    requires NoEditOfEdit(events) && j < |events| && EditedUpTo(events, j, st) && TargetOf(events, j) == Some(t)
    ensures ReplaceStep(IdMap(events), st, j) == Ok(EditState(st.contents[t := events[j].content.newContent], st.live[j := false]))
    ensures EditedUpTo(events, j + 1, ReplaceStep(IdMap(events), st, j).value)
  {
    ReplaceStepFound(events, j, t, st);
    EditedAfterApply(events, j, t, st);
  }

  lemma ReplaceStepFound(events: seq<Event>, j: nat, t: nat, st: EditState)
    requires NoEditOfEdit(events) && j < |events| && EditedUpTo(events, j, st) && TargetOf(events, j) == Some(t)
    ensures ReplaceStep(IdMap(events), st, j) == Ok(EditState(st.contents[t := events[j].content.newContent], st.live[j := false]))
  {
    ReplacerUnedited(events, j, j);
    assert !IsReplace(events[t]);
    assert st.live[t];
  }

  lemma EditedAfterApply(events: seq<Event>, j: nat, t: nat, st: EditState)
    requires j < |events| && EditedUpTo(events, j, st) && TargetOf(events, j) == Some(t)
    ensures EditedUpTo(events, j + 1, EditState(st.contents[t := events[j].content.newContent], st.live[j := false]))
  {
    var st' := EditState(st.contents[t := events[j].content.newContent], st.live[j := false]);
    forall k | 0 <= k < |events| ensures st'.contents[k] == EditedContent(events, j + 1, k) {
    }
    forall k | 0 <= k < |events| ensures st'.live[k] <==> !(k < j + 1 && Found(events, k)) {
    }
  }

  /** Without edits of edits the loop never throws. */
  lemma {:induction false} EditsWithoutEditOfEdit(events: seq<Event>, n: nat)
    requires NoEditOfEdit(events) && n <= |events|
    ensures Edits(events, n).Ok? && EditedUpTo(events, n, Edits(events, n).value)
  {
    if n > 0 {
      EditsWithoutEditOfEdit(events, n - 1);
      EditedStep(events, n - 1, Edits(events, n - 1).value);
    }
  }

  /** The positions before `n` whose flag is set, in increasing order. */
  function Kept(flags: seq<bool>, n: nat): (s: seq<nat>)
    requires n <= |flags|
    ensures forall m :: 0 <= m < |s| ==> s[m] < n
  {
    if n == 0 then []
    else Kept(flags, n - 1) + (if flags[n - 1] then [n - 1] else [])
  }

  lemma {:induction false} KeptShape(flags: seq<bool>, n: nat)
    requires n <= |flags|
    ensures var s := Kept(flags, n);
      && (forall m, m' :: 0 <= m < m' < |s| ==> s[m] < s[m'])
      && (forall k :: 0 <= k < n ==> (k in s <==> flags[k]))
  {
    if n > 0 {
      KeptShape(flags, n - 1);
    }
  }

  /** For each position, whether it is not a found replacer. */
  function Unfound(events: seq<Event>): (f: seq<bool>)
    ensures |f| == |events| && forall k :: 0 <= k < |events| ==> (f[k] <==> !Found(events, k))
  {
    seq(|events|, k requires 0 <= k < |events| => !Found(events, k))
  }

  /** The positions, in order, that are not nulled: every one but the found replacers. */
  function Survivors(events: seq<Event>, n: nat): (s: seq<nat>)
    requires n <= |events|
    ensures forall m :: 0 <= m < |s| ==> s[m] < n
  {
    Kept(Unfound(events), n)
  }

  /** The survivors are in increasing order, and they are exactly the positions not found. */
  lemma SurvivorsShape(events: seq<Event>, n: nat)
    requires n <= |events|
    ensures var s := Survivors(events, n);
      && (forall m, m' :: 0 <= m < m' < |s| ==> s[m] < s[m'])
      && (forall k :: 0 <= k < n ==> (k in s <==> !Found(events, k)))
  {
    KeptShape(Unfound(events), n);
  }

  /** The number of found replacers before `n`. */
  function CountFound(events: seq<Event>, n: nat): nat
    requires n <= |events|
  {
    if n == 0 then 0
    else CountFound(events, n - 1) + (if Found(events, n - 1) then 1 else 0)
  }

  lemma {:induction false} SurvivorsCount(events: seq<Event>, n: nat)
    requires n <= |events|
    ensures |Survivors(events, n)| == n - CountFound(events, n)
  {
    if n > 0 {
      SurvivorsCount(events, n - 1);
      var flags := Unfound(events);
      assert Kept(flags, n) == Kept(flags, n - 1) + (if flags[n - 1] then [n - 1] else []);
    }
  }

  lemma {:induction false} ProjectKept(events: seq<Event>, st: EditState, n: nat)
    requires n <= |events| && Sized(st, |events|)
    ensures var s := Kept(st.live, n);
      var out := Project(events, st, n);
      |out| == |s| && forall m :: 0 <= m < |s| ==> out[m] == events[s[m]].(content := st.contents[s[m]])
  {
    if n > 0 {
      ProjectKept(events, st, n - 1);
    }
  }

  lemma ProjectSurvivors(events: seq<Event>, st: EditState, n: nat)
    requires n <= |events| && Sized(st, |events|)
    requires forall k :: 0 <= k < |events| ==> (st.live[k] <==> !Found(events, k))
    ensures var s := Survivors(events, n);
      var out := Project(events, st, n);
      |out| == |s| && forall m :: 0 <= m < |s| ==> out[m] == events[s[m]].(content := st.contents[s[m]])
  {
    ProjectKept(events, st, n);
    assert Unfound(events) == st.live;
  }

  /**
   * Without edits of edits, `applyModifications` succeeds; its result is
   * the surviving events in their original order, each with the content
   * its last replacer gave it, and it is shorter than the input by the
   * number of replacers whose target was found. A replacer whose target is
   * absent survives unchanged.
   */
  lemma AppliedWithoutEditOfEdit(events: seq<Event>)
    requires NoEditOfEdit(events)
    ensures var s := Survivors(events, |events|);
      && Applied(events).Ok?
      && |Applied(events).value| == |s| == |events| - CountFound(events, |events|)
      && forall m :: 0 <= m < |s| ==>
           Applied(events).value[m] == events[s[m]].(content := EditedContent(events, |events|, s[m]))
  {
    EditsWithoutEditOfEdit(events, |events|);
    ProjectSurvivors(events, Edits(events, |events|).value, |events|);
    SurvivorsCount(events, |events|);
  }

  /** A replacer whose target is not among the events is kept as it was. */
  lemma UnfoundReplacerKept(events: seq<Event>, j: nat)
    requires NoEditOfEdit(events) && j < |events| && IsReplace(events[j]) && !Found(events, j)
    ensures j in Survivors(events, |events|)
    ensures EditedContent(events, |events|, j) == events[j].content
  {
    SurvivorsShape(events, |events|);
    ReplacerUnedited(events, |events|, j);
  }

  /**
   * `sanitizeRoomName`: a name starting with `#` gains the prefix `irc-`,
   * then spaces become `_` and every `#` is dropped.
   */
  function SanitizeRoomName(room: string): (r: string)
    ensures '#' !in r && ' ' !in r
    ensures |room| > 0 && room[0] == '#' ==> |r| >= 4 && r[..4] == "irc-"
    ensures |r| == |room| - CountChar(room, '#') + (if |room| > 0 && room[0] == '#' then 4 else 0)
  {
    var named := if |room| > 0 && room[0] == '#' then "irc-" + room else room;
    CountCharAppend("irc-", room, '#');
    SpacesKeepHashes(named);
    CleanPrefixKept("irc-", room);
    DropHashesLength(SpacesToUnderscores(named));
    DropHashes(SpacesToUnderscores(named))
  }

  function CountChar(s: string, c: char): (n: nat)
    ensures n <= |s|
    ensures n == 0 <==> c !in s
  {
    if s == [] then 0 else (if s[0] == c then 1 else 0) + CountChar(s[1..], c)
  }

  lemma {:induction false} CountCharAppend(a: string, b: string, c: char)
    ensures CountChar(a + b, c) == CountChar(a, c) + CountChar(b, c)
  {
    if a != [] {
      assert (a + b)[1..] == a[1..] + b;
      CountCharAppend(a[1..], b, c);
    } else {
      assert a + b == b;
    }
  }

  /** `.replace(/ /g, '_')` */
  function SpacesToUnderscores(s: string): (r: string)
    ensures |r| == |s| && ' ' !in r
    ensures forall i :: 0 <= i < |s| ==> r[i] == (if s[i] == ' ' then '_' else s[i])
  {
    if s == [] then []
    else [if s[0] == ' ' then '_' else s[0]] + SpacesToUnderscores(s[1..])
  }

  lemma {:induction false} SpacesKeepHashes(s: string)
    ensures CountChar(SpacesToUnderscores(s), '#') == CountChar(s, '#')
  {
    if s != [] {
      SpacesKeepHashes(s[1..]);
    }
  }

  /** `.replace(/#/g, '')` */
  function DropHashes(s: string): (r: string)
    ensures '#' !in r
    ensures ' ' !in s ==> ' ' !in r
  {
    if s == [] then []
    else if s[0] == '#' then DropHashes(s[1..])
    else [s[0]] + DropHashes(s[1..])
  }

  /** Dropping the `#`s shortens a name by their number. */
  lemma {:induction false} DropHashesLength(s: string)
    ensures |DropHashes(s)| == |s| - CountChar(s, '#')
  {
    if s != [] {
      DropHashesLength(s[1..]);
    }
  }

  lemma {:induction false} DropHashesOfClean(s: string)
    requires '#' !in s
    ensures DropHashes(s) == s
  {
    if s != [] {
      DropHashesOfClean(s[1..]);
    }
  }

  lemma {:induction false} SpacesOfClean(s: string)
    requires ' ' !in s
    ensures SpacesToUnderscores(s) == s
  {
    if s != [] {
      SpacesOfClean(s[1..]);
    }
  }

  /** A prefix without `#` or space comes through both rewrites as it is. */
  lemma CleanPrefixKept(a: string, b: string)
    requires '#' !in a && ' ' !in a
    ensures DropHashes(SpacesToUnderscores(a + b)) == a + DropHashes(SpacesToUnderscores(b))
  {
    SpacesPrefix(a, b);
    HashesPrefix(a, SpacesToUnderscores(b));
  }

  lemma {:induction false} SpacesPrefix(a: string, b: string)
    requires ' ' !in a
    ensures SpacesToUnderscores(a + b) == a + SpacesToUnderscores(b)
  {
    if a == [] {
      assert a + b == b;
    } else {
      assert (a + b)[1..] == a[1..] + b;
      SpacesPrefix(a[1..], b);
      assert a == [a[0]] + a[1..];
    }
  }

  lemma {:induction false} HashesPrefix(a: string, b: string)
    requires '#' !in a
    ensures DropHashes(a + b) == a + DropHashes(b)
  {
    if a == [] {
      assert a + b == b;
    } else {
      var rest := a[1..];
      HashesPrefix(rest, b);
      assert a + b == [a[0]] + (rest + b);
      assert a + DropHashes(b) == [a[0]] + (rest + DropHashes(b));
    }
  }

  /** A sanitized name is its own sanitized name. */
  lemma SanitizeRoomNameIdempotent(room: string)
    ensures SanitizeRoomName(SanitizeRoomName(room)) == SanitizeRoomName(room)
  {
    var r := SanitizeRoomName(room);
    SpacesOfClean(r);
    DropHashesOfClean(r);
  }
}
