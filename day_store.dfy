/**
 * The per-day event file of `run.mjs`: how a day's new events are merged
 * into what the file already holds (concatenate, keep the first event of
 * each `id`, stable sort by `ts`), and how the result is written out.
 */
module DayStore {
  import opened Common
  import opened Seqs
  import opened Events

  function Ids(s: seq<Event>): set<Option<string>> {
    set e | e in s :: e.id
  }

  lemma IdsAppend(a: seq<Event>, b: seq<Event>)
    ensures Ids(a + b) == Ids(a) + Ids(b)
  {
    forall x | x in Ids(a + b) ensures x in Ids(a) + Ids(b) {
      var e :| e in a + b && e.id == x;
    }
    forall x | x in Ids(a) + Ids(b) ensures x in Ids(a + b) {
      if x in Ids(a) {
        var e :| e in a && e.id == x;
        assert e in a + b;
      } else {
        var e :| e in b && e.id == x;
        assert e in a + b;
      }
    }
  }

  /** No two events share an `id` (an absent `id` counts as one value). */
  predicate UniqueIds(s: seq<Event>) {
    forall i, j :: 0 <= i < j < |s| ==> s[i].id != s[j].id
  }

  predicate SortedByTs(s: seq<Event>) {
    forall i, j :: 0 <= i < j < |s| ==> s[i].ts <= s[j].ts
  }

  /** In a duplicate-free sequence the head's id does not recur in the tail. */
  lemma UniqueHead(s: seq<Event>)
    requires s != [] && UniqueIds(s)
    ensures s[0].id !in Ids(s[1..]) && UniqueIds(s[1..])
    ensures Ids(s) == {s[0].id} + Ids(s[1..])
  {
    forall e | e in s[1..] ensures e.id != s[0].id {
      var k :| 0 <= k < |s| - 1 && s[1..][k] == e;
      assert s[k + 1] == e;
    }
    assert s == [s[0]] + s[1..];
    IdsAppend([s[0]], s[1..]);
  }

  /** The first event of `s` carrying `id`. */
  function FirstWithId(s: seq<Event>, id: Option<string>): (e: Event)
    requires id in Ids(s)
    ensures e in s && e.id == id
  {
    if s[0].id == id then s[0] else FirstWithId(s[1..], id)
  }

  /**
   * `s.filter(e => seenIds.has(e.id) ? false : (seenIds.add(e.id), true))`
   * with `seenIds` holding `seen` beforehand.
   */
  function DedupeFrom(s: seq<Event>, seen: set<Option<string>>): (r: seq<Event>)
    ensures |r| <= |s|
  {
    if s == [] then []
    else if s[0].id in seen then DedupeFrom(s[1..], seen)
    else [s[0]] + DedupeFrom(s[1..], seen + {s[0].id})
  }

  /**
   * The filter keeps no two events with one id, keeps every id not seen
   * before, and for each id the first event carrying it.
   */
  lemma {:induction false} DedupeFromProperties(s: seq<Event>, seen: set<Option<string>>)
    ensures var r := DedupeFrom(s, seen);
      && UniqueIds(r)
      && Ids(r) == Ids(s) - seen
      && (forall i :: 0 <= i < |r| ==> r[i] in s && r[i].id !in seen)
      && (forall i :: 0 <= i < |r| ==> r[i] == FirstWithId(s, r[i].id))
  {
    if s != [] {
      var rest := s[1..];
      assert s == [s[0]] + rest;
      IdsAppend([s[0]], rest);
      if s[0].id in seen {
        DedupeFromProperties(rest, seen);
      } else {
        var r := DedupeFrom(rest, seen + {s[0].id});
        DedupeFromProperties(rest, seen + {s[0].id});
        IdsAppend([s[0]], r);
        assert DedupeFrom(s, seen) == [s[0]] + r;
        UniqueCons(s[0], r);
      }
    }
  }

  function Dedupe(s: seq<Event>): (r: seq<Event>) {
    DedupeFrom(s, {})
  }

  /** Events with timestamp `t`, in order: what a stable sort must not reorder. */
  function WithTs(s: seq<Event>, t: int): (r: seq<Event>)
    ensures |r| <= |s|
  {
    if s == [] then []
    else (if s[0].ts == t then [s[0]] else []) + WithTs(s[1..], t)
  }

  /** Places `e` before the first event that is not earlier than it. */
  function InsertByTs(e: Event, s: seq<Event>): (r: seq<Event>)
    ensures |r| == |s| + 1
    ensures multiset(r) == multiset(s) + multiset{e}
  {
    if s == [] || e.ts <= s[0].ts then [e] + s
    else
      assert s == [s[0]] + s[1..];
      [s[0]] + InsertByTs(e, s[1..])
  }

  /** Inserting an event no earlier than `b` into events no earlier than `b` keeps them so. */
  lemma {:induction false} InsertByTsBound(e: Event, s: seq<Event>, b: int)
    requires b <= e.ts && forall k :: 0 <= k < |s| ==> b <= s[k].ts
    ensures forall k :: 0 <= k < |InsertByTs(e, s)| ==> b <= InsertByTs(e, s)[k].ts
  {
    if s != [] && e.ts > s[0].ts {
      var t := InsertByTs(e, s[1..]);
      InsertByTsBound(e, s[1..], b);
      var r := [s[0]] + t;
      assert InsertByTs(e, s) == r;
      forall k | 0 <= k < |r| ensures b <= r[k].ts {
        if k == 0 {
          assert r[k] == s[0];
        } else {
          assert r[k] == t[k - 1];
        }
      }
    }
  }

  lemma {:induction false} InsertByTsSorted(e: Event, s: seq<Event>)
    requires SortedByTs(s)
    ensures SortedByTs(InsertByTs(e, s))
  {
    if s != [] && e.ts > s[0].ts {
      var rest := s[1..];
      var t := InsertByTs(e, rest);
      InsertByTsSorted(e, rest);
      forall k | 0 <= k < |rest| ensures s[0].ts <= rest[k].ts {
        assert rest[k] == s[k + 1];
      }
      InsertByTsBound(e, rest, s[0].ts);
      var r := [s[0]] + t;
      assert InsertByTs(e, s) == r;
      forall i, j | 0 <= i < j < |r| ensures r[i].ts <= r[j].ts {
        assert r[j] == t[j - 1];
        if i == 0 {
          assert r[i] == s[0];
          assert s[0].ts <= t[j - 1].ts;
        } else {
          assert r[i] == t[i - 1];
        }
      }
    }
  }

  /** `.sort((a, b) => a.ts - b.ts)`: a stable sort ascending by timestamp. */
  function SortByTs(s: seq<Event>): (r: seq<Event>)
    ensures |r| == |s|
    ensures multiset(r) == multiset(s)
    ensures SortedByTs(r)
  {
    if s == [] then []
    else
      assert s == [s[0]] + s[1..];
      var t := SortByTs(s[1..]);
      InsertByTsSorted(s[0], t);
      InsertByTs(s[0], t)
  }

  /** Prepending an event whose id is new keeps ids unique. */
  lemma UniqueCons(x: Event, t: seq<Event>)
    requires UniqueIds(t) && x.id !in Ids(t)
    ensures UniqueIds([x] + t)
  {
    var r := [x] + t;
    forall i, j | 0 <= i < j < |r| ensures r[i].id != r[j].id {
      assert r[j] == t[j - 1];
      if i == 0 {
        assert t[j - 1] in t;
      } else {
        assert r[i] == t[i - 1];
      }
    }
  }

  /** Two arrangements of the same events carry the same ids. */
  lemma IdsOfPermutation(a: seq<Event>, b: seq<Event>)
    requires multiset(a) == multiset(b)
    ensures Ids(a) == Ids(b)
  {
    forall x | x in Ids(a) ensures x in Ids(b) {
      var e :| e in a && e.id == x;
      assert e in multiset(b);
    }
    forall x | x in Ids(b) ensures x in Ids(a) {
      var e :| e in b && e.id == x;
      assert e in multiset(a);
    }
  }

  lemma InsertByTsIdSet(e: Event, s: seq<Event>)
    ensures Ids(InsertByTs(e, s)) == {e.id} + Ids(s)
  {
    IdsOfPermutation(InsertByTs(e, s), [e] + s);
    IdsAppend([e], s);
    assert Ids([e]) == {e.id};
  }

  lemma {:induction false} InsertByTsUnique(e: Event, s: seq<Event>)
    requires UniqueIds(s) && e.id !in Ids(s)
    ensures UniqueIds(InsertByTs(e, s))
  {
    if s == [] || e.ts <= s[0].ts {
      UniqueCons(e, s);
    } else {
      var rest := s[1..];
      var t := InsertByTs(e, rest);
      assert InsertByTs(e, s) == [s[0]] + t;
      UniqueHead(s);
      InsertByTsUnique(e, rest);
      InsertByTsIdSet(e, rest);
      assert s[0] in s;
      UniqueCons(s[0], t);
    }
  }

  lemma {:induction false} SortByTsUnique(s: seq<Event>)
    requires UniqueIds(s)
    ensures UniqueIds(SortByTs(s))
  {
    if s != [] {
      var rest := s[1..];
      var t := SortByTs(rest);
      assert SortByTs(s) == InsertByTs(s[0], t);
      UniqueHead(s);
      SortByTsUnique(rest);
      IdsOfPermutation(t, rest);
      InsertByTsUnique(s[0], t);
    }
  }

  /** Sorting neither loses nor duplicates an id. */
  lemma SortByTsIds(s: seq<Event>)
    ensures Ids(SortByTs(s)) == Ids(s)
    ensures UniqueIds(s) ==> UniqueIds(SortByTs(s))
  {
    IdsOfPermutation(SortByTs(s), s);
    if UniqueIds(s) {
      SortByTsUnique(s);
    }
  }

  lemma {:induction false} InsertByTsWithTs(e: Event, s: seq<Event>, t: int)
    ensures WithTs(InsertByTs(e, s), t) == (if e.ts == t then [e] else []) + WithTs(s, t)
  {
    if s == [] || e.ts <= s[0].ts {
      WithTsCons(e, s, t);
    } else {
      var rest := s[1..];
      var r := InsertByTs(e, rest);
      assert InsertByTs(e, s) == [s[0]] + r;
      InsertByTsWithTs(e, rest, t);
      WithTsCons(s[0], r, t);
      WithTsCons(s[0], rest, t);
      assert s == [s[0]] + rest;
    }
  }

  lemma WithTsCons(x: Event, r: seq<Event>, t: int)
    ensures WithTs([x] + r, t) == (if x.ts == t then [x] else []) + WithTs(r, t)
  {
    assert ([x] + r)[1..] == r;
  }

  /** Stability: events with equal timestamps keep their relative order. */
  lemma {:induction false} SortByTsStable(s: seq<Event>, t: int)
    ensures WithTs(SortByTs(s), t) == WithTs(s, t)
  {
    if s != [] {
      SortByTsStable(s[1..], t);
      InsertByTsWithTs(s[0], SortByTs(s[1..]), t);
    }
  }

  /** Sorting what is already sorted changes nothing. */
  lemma {:induction false} SortByTsOfSorted(s: seq<Event>)
    requires SortedByTs(s)
    ensures SortByTs(s) == s
  {
    if s != [] {
      SortByTsOfSorted(s[1..]);
      assert SortByTs(s) == InsertByTs(s[0], s[1..]);
      assert s == [s[0]] + s[1..];
    }
  }

  /** A sequence without repeated ids loses nothing to deduplication. */
  lemma {:induction false} DedupeFromUnique(s: seq<Event>, seen: set<Option<string>>)
    requires UniqueIds(s) && Ids(s) !! seen
    ensures DedupeFrom(s, seen) == s
  {
    if s != [] {
      UniqueHead(s);
      DedupeFromUnique(s[1..], seen + {s[0].id});
    }
  }

  /** Deduplicating an already-unique prefix leaves it alone and marks its ids as seen. */
  lemma {:induction false} DedupeFromAppend(m: seq<Event>, x: seq<Event>, seen: set<Option<string>>)
    requires UniqueIds(m) && Ids(m) !! seen
    ensures DedupeFrom(m + x, seen) == m + DedupeFrom(x, seen + Ids(m))
  {
    if m == [] {
      assert m + x == x;
      assert Ids(m) == {};
      assert seen + Ids(m) == seen;
    } else {
      UniqueHead(m);
      assert m[0].id !in seen;
      var seen' := seen + {m[0].id};
      assert (m + x)[0] == m[0];
      assert (m + x)[1..] == m[1..] + x;
      assert DedupeFrom(m + x, seen) == [m[0]] + DedupeFrom(m[1..] + x, seen');
      DedupeFromAppend(m[1..], x, seen');
      assert seen' + Ids(m[1..]) == seen + Ids(m);
      var d := DedupeFrom(x, seen + Ids(m));
      HeadTailAppend(m, d);
    }
  }

  /** Events whose every id has been seen are all dropped. */
  lemma {:induction false} DedupeFromAllSeen(s: seq<Event>, seen: set<Option<string>>)
    requires Ids(s) <= seen
    ensures DedupeFrom(s, seen) == []
  {
    if s != [] {
      assert s == [s[0]] + s[1..];
      IdsAppend([s[0]], s[1..]);
      DedupeFromAllSeen(s[1..], seen);
    }
  }

  /** `[...existing, ...forDay]`, deduplicated by id, stably sorted by ts (run.mjs:320-323). */
  function Merge(existing: seq<Event>, incoming: seq<Event>): seq<Event> {
    SortByTs(Dedupe(existing + incoming))
  }

  /**
   * A merged day file is sorted by `ts`, holds no two events with the same
   * `id`, loses no `id` of either side, and for each `id` keeps the first
   * event carrying it: an event already in the file wins over a new one.
   */
  lemma MergeProperties(existing: seq<Event>, incoming: seq<Event>)
    ensures var r := Merge(existing, incoming);
      && SortedByTs(r)
      && UniqueIds(r)
      && Ids(r) == Ids(existing) + Ids(incoming)
      && |r| <= |existing| + |incoming|
      && forall e :: e in r ==> e.id in Ids(existing + incoming) && e == FirstWithId(existing + incoming, e.id)
  {
    var c := existing + incoming;
    var d := Dedupe(c);
    var r := Merge(existing, incoming);
    IdsAppend(existing, incoming);
    DedupeFromProperties(c, {});
    SortByTsIds(d);
    forall e | e in r ensures e in d {
      assert e in multiset(r);
    }
  }

  /** Events with equal timestamps keep their order in the concatenation, minus duplicates. */
  lemma MergeStable(existing: seq<Event>, incoming: seq<Event>, t: int)
    ensures WithTs(Merge(existing, incoming), t) == WithTs(Dedupe(existing + incoming), t)
  {
    SortByTsStable(Dedupe(existing + incoming), t);
  }

  /** Writing a day back with nothing new leaves a stored file exactly as it is. */
  lemma MergeNothingNew(stored: seq<Event>, incoming: seq<Event>)
    requires SortedByTs(stored) && UniqueIds(stored) && Ids(incoming) <= Ids(stored)
    ensures Merge(stored, incoming) == stored
  {
    DedupeFromAppend(stored, incoming, {});
    assert {} + Ids(stored) == Ids(stored);
    DedupeFromAllSeen(incoming, Ids(stored));
    assert stored + [] == stored;
    SortByTsOfSorted(stored);
  }

  /** Merging the same slice twice yields the same file as merging it once. */
  lemma MergeIdempotent(existing: seq<Event>, incoming: seq<Event>)
    ensures Merge(Merge(existing, incoming), incoming) == Merge(existing, incoming)
  {
    MergeProperties(existing, incoming);
    MergeNothingNew(Merge(existing, incoming), incoming);
  }

  /** Nothing already in a (duplicate-free) day file is ever dropped by a merge. */
  lemma MergeKeepsExisting(existing: seq<Event>, incoming: seq<Event>)
    requires UniqueIds(existing)
    ensures forall e :: e in existing ==> e in Merge(existing, incoming)
  {
    var c := existing + incoming;
    var d := Dedupe(c);
    DedupeFromAppend(existing, incoming, {});
    assert forall e :: e in existing ==> e in d;
    forall e | e in existing ensures e in Merge(existing, incoming) {
      assert e in multiset(d);
    }
  }

  lemma BracketLines(j: string)
    ensures "[\n" + j + "\n]" == "[" + "\n" + (j + "\n" + "]")
  {
  }

  /** `JSON.stringify` of one event: any function that prints no raw line break. */
  predicate OneLine(stringify: Event -> string, s: seq<Event>) {
    forall i :: 0 <= i < |s| ==> '\n' !in stringify(s[i])
  }

  function JoinWith(parts: seq<string>, sep: string): string {
    if parts == [] then []
    else if |parts| == 1 then parts[0]
    else parts[0] + sep + JoinWith(parts[1..], sep)
  }

  function MapStringify(stringify: Event -> string, s: seq<Event>): (r: seq<string>)
    ensures |r| == |s| && forall i :: 0 <= i < |s| ==> r[i] == stringify(s[i])
  {
    if s == [] then [] else [stringify(s[0])] + MapStringify(stringify, s[1..])
  }

  /**
   * The text of a day file (run.mjs:325, irc-logs-to-fake-json.js:83):
   * `[]` when empty, otherwise one event per line between `[` and `]`.
   */
  function Serialize(stringify: Event -> string, s: seq<Event>): string {
    if |s| == 0 then "[]"
    else "[\n" + JoinWith(MapStringify(stringify, s), ",\n") + "\n]"
  }

  /** `text.split('\n')`. */
  function SplitLines(s: string): (r: seq<string>)
    ensures |r| >= 1
    decreases |s|
  {
    if '\n' !in s then [s]
    else
      var i := FirstNewline(s);
      [s[..i]] + SplitLines(s[i + 1..])
  }

  function FirstNewline(s: string): (i: nat)
    requires '\n' in s
    ensures i < |s| && s[i] == '\n' && '\n' !in s[..i]
  {
    if s[0] == '\n' then 0
    else
      var k := FirstNewline(s[1..]);
      assert s[1..][..k] == s[1..k + 1];
      k + 1
  }

  lemma SplitLinesCons(a: string, b: string)
    requires '\n' !in a
    ensures SplitLines(a + "\n" + b) == [a] + SplitLines(b)
  {
    var s := a + "\n" + b;
    assert s[..|a|] == a;
    FirstNewlineAt(s, |a|);
    assert s[|a| + 1..] == b;
  }

  /** The first line break is the one with none before it. */
  lemma {:induction false} FirstNewlineAt(s: string, k: nat)
    requires k < |s| && s[k] == '\n' && '\n' !in s[..k]
    ensures '\n' in s && FirstNewline(s) == k
  {
    assert s[k] in s;
    if k > 0 {
      assert s[0] == s[..k][0];
      assert s[1..][..k - 1] == s[..k][1..];
      assert s[1..][k - 1] == s[k];
      FirstNewlineAt(s[1..], k - 1);
    }
  }

  /** The lines of the file body: every event line but the last ends in a comma. */
  function BodyLines(lines: seq<string>): (r: seq<string>)
    ensures |r| == |lines|
  {
    if |lines| <= 1 then lines else [lines[0] + ","] + BodyLines(lines[1..])
  }

  /** Regrouping a line ended by `,` and a line break. */
  lemma CommaBreak(a: string, j: string, rest: string)
    requires '\n' !in a
    ensures a + ",\n" + j + "\n" + rest == (a + ",") + "\n" + (j + "\n" + rest)
    ensures '\n' !in a + ","
  {
  }

  lemma {:induction false} JoinSplit(lines: seq<string>, rest: string)
    requires |lines| >= 1 && forall i :: 0 <= i < |lines| ==> '\n' !in lines[i]
    ensures SplitLines(JoinWith(lines, ",\n") + "\n" + rest) == BodyLines(lines) + SplitLines(rest)
  {
    if |lines| == 1 {
      SplitLinesCons(lines[0], rest);
    } else {
      var tail := lines[1..];
      assert forall i :: 0 <= i < |tail| ==> '\n' !in tail[i] by {
        forall i | 0 <= i < |tail| ensures '\n' !in tail[i] {
          assert tail[i] == lines[i + 1];
        }
      }
      JoinSplit(tail, rest);
      JoinSplitStep(lines[0], tail, rest);
      assert lines == [lines[0]] + tail;
    }
  }

  /** One more line in front: the step of `JoinSplit`. */
  lemma JoinSplitStep(first: string, tail: seq<string>, rest: string)
    requires |tail| >= 1 && '\n' !in first
    requires SplitLines(JoinWith(tail, ",\n") + "\n" + rest) == BodyLines(tail) + SplitLines(rest)
    ensures SplitLines(JoinWith([first] + tail, ",\n") + "\n" + rest) == BodyLines([first] + tail) + SplitLines(rest)
  {
    var lines := [first] + tail;
    assert lines[0] == first && lines[1..] == tail;
    var j := JoinWith(tail, ",\n");
    assert JoinWith(lines, ",\n") == first + ",\n" + j;
    assert BodyLines(lines) == [first + ","] + BodyLines(tail);
    CommaBreak(first, j, rest);
    SplitLinesConsOf(JoinWith(lines, ",\n") + "\n" + rest, first + ",", j + "\n" + rest, BodyLines(tail), SplitLines(rest));
  }

  lemma SplitLinesConsOf(s: string, a: string, t: string, body: seq<string>, r: seq<string>)
    requires '\n' !in a && s == a + "\n" + t && SplitLines(t) == body + r
    ensures SplitLines(s) == [a] + body + r
  {
    SplitLinesCons(a, t);
  }

  /**
   * Split at line breaks, a non-empty day file is `[`, then one line per
   * event in order (`,` after all but the last), then `]`.
   */
  lemma SerializeOneEventPerLine(stringify: Event -> string, s: seq<Event>)
    requires |s| > 0 && OneLine(stringify, s)
    ensures SplitLines(Serialize(stringify, s)) == ["["] + BodyLines(MapStringify(stringify, s)) + ["]"]
  {
    var lines := MapStringify(stringify, s);
    var j := JoinWith(lines, ",\n");
    JoinSplit(lines, "]");
    assert Serialize(stringify, s) == "[\n" + j + "\n]";
    BracketLines(j);
    SplitLinesCons("[", j + "\n" + "]");
    assert SplitLines("]") == ["]"];
  }
}
