/**
 * `saveDays` of `run.mjs` as a specification: the buffer of fetched
 * messages is drained one UTC day at a time, each day's slice merged into
 * that day's file. The room's directory is a map from day name
 * (`YYYY-MM-DD`, the file `<day>.json`) to the events the file holds.
 */
module DayBuffer {
  import opened Events
  import opened Calendar
  import opened DayStore
  import opened Seqs

  /** The day file an event belongs to. */
  function DayOf(e: Event): string {
    TsToDay(e.ts)
  }

  /** A room directory: day name to the parsed content of its file. */
  type Files = map<string, seq<Event>>

  /** `existsSync(file) ? JSON.parse(readFileSync(file)) : []` */
  function Stored(files: Files, day: string): seq<Event> {
    if day in files then files[day] else []
  }

  /** Every stored day file is sorted by `ts` and free of repeated ids. */
  predicate ValidFiles(files: Files) {
    forall d :: d in files ==> SortedByTs(files[d]) && UniqueIds(files[d])
  }

  /**
   * The length of the longest prefix of `s` whose elements all have key
   * `v`. With `DayOf` as the key, what the inner loop of `saveDays` shifts
   * off the buffer.
   */
  function KeyPrefix<T>(s: seq<T>, key: T -> string, v: string): (k: nat)
    ensures k <= |s|
    ensures forall i :: 0 <= i < k ==> key(s[i]) == v
    ensures k == |s| || key(s[k]) != v
  {
    if s == [] || key(s[0]) != v then 0
    else
      var k := KeyPrefix(s[1..], key, v);
      assert forall i :: 0 <= i < k ==> s[i + 1] == s[1..][i];
      assert k < |s| - 1 ==> s[k + 1] == s[1..][k];
      1 + k
  }

  function SameDayPrefix(buf: seq<Event>, day: string): (k: nat)
    ensures k <= |buf|
  {
    KeyPrefix(buf, DayOf, day)
  }

  /** The prefix is exactly the leading run of events of day `day`. */
  lemma SameDayPrefixShape(buf: seq<Event>, day: string)
    ensures var k := SameDayPrefix(buf, day);
      && (forall i :: 0 <= i < k ==> DayOf(buf[i]) == day)
      && (k == |buf| || DayOf(buf[k]) != day)
  {
  }

  lemma SameDayPrefixStep(buf: seq<Event>, day: string)
    requires |buf| > 0 && DayOf(buf[0]) == day
    ensures SameDayPrefix(buf, day) == 1 + SameDayPrefix(buf[1..], day)
  {
  }

  /**
   * The outer loop's guard: the buffer is not empty, and either the last
   * day is to be flushed too or the buffer spans more than one day.
   */
  predicate Pending(buf: seq<Event>, forceLast: bool) {
    PendingBy(buf, DayOf, forceLast)
  }

  /** `Pending` for any grouping key. */
  predicate PendingBy<T>(s: seq<T>, key: T -> string, forceLast: bool) {
    |s| > 0 && (forceLast || key(s[0]) != key(s[|s| - 1]))
  }

  /** The buffer and the directory after `saveDays(dir, buf, forceLast)`. */
  function SaveAll(buf: seq<Event>, files: Files, forceLast: bool): (seq<Event>, Files)
    decreases |buf|
  {
    if Pending(buf, forceLast) then
      var day := DayOf(buf[0]);
      var k := SameDayPrefix(buf, day);
      SaveAll(buf[k..], files[day := Merge(Stored(files, day), buf[..k])], forceLast)
    else (buf, files)
  }

  /** One pass of the outer loop: the day of the first event is written and its prefix dropped. */
  lemma SaveAllPass(buf: seq<Event>, files: Files, forceLast: bool)
    requires Pending(buf, forceLast)
    ensures var day := DayOf(buf[0]);
      var k := SameDayPrefix(buf, day);
      SaveAll(buf, files, forceLast) == SaveAll(buf[k..], files[day := Merge(Stored(files, day), buf[..k])], forceLast)
  {
  }

  /**
   * What the outer loop of `saveDays` leaves in the buffer, for any
   * grouping key; with `DayOf` it does not depend on the files.
   */
  function DrainBy<T>(s: seq<T>, key: T -> string, forceLast: bool): seq<T>
    decreases |s|
  {
    if PendingBy(s, key, forceLast) then DrainBy(s[KeyPrefix(s, key, key(s[0]))..], key, forceLast) else s
  }

  lemma {:induction false} SaveAllDrain(buf: seq<Event>, files: Files, forceLast: bool)
    ensures SaveAll(buf, files, forceLast).0 == DrainBy(buf, DayOf, forceLast)
    decreases |buf|
  {
    if Pending(buf, forceLast) {
      var day := DayOf(buf[0]);
      var k := SameDayPrefix(buf, day);
      SaveAllDrain(buf[k..], files[day := Merge(Stored(files, day), buf[..k])], forceLast);
    }
  }

  /** What is left is a suffix on which the loop guard fails. */
  lemma {:induction false} DrainLeavesSuffix<T>(s: seq<T>, key: T -> string, forceLast: bool)
    ensures var rest := DrainBy(s, key, forceLast);
      |rest| <= |s| && rest == s[|s| - |rest|..] && !PendingBy(rest, key, forceLast)
    decreases |s|
  {
    if PendingBy(s, key, forceLast) {
      var k := KeyPrefix(s, key, key(s[0]));
      var tail := s[k..];
      DrainLeavesSuffix(tail, key, forceLast);
      SuffixOfSuffix(s, k, DrainBy(tail, key, forceLast));
    }
  }

  lemma {:induction false} DrainShorter<T>(s: seq<T>, key: T -> string, forceLast: bool)
    ensures |DrainBy(s, key, forceLast)| <= |s|
    decreases |s|
  {
    if PendingBy(s, key, forceLast) {
      DrainShorter(s[KeyPrefix(s, key, key(s[0]))..], key, forceLast);
    }
  }

  lemma SaveAllLeavesSuffix(buf: seq<Event>, files: Files, forceLast: bool)
    ensures var rest := SaveAll(buf, files, forceLast).0;
      |rest| <= |buf| && rest == buf[|buf| - |rest|..] && !Pending(rest, forceLast)
  {
    SaveAllDrain(buf, files, forceLast);
    DrainLeavesSuffix(buf, DayOf, forceLast);
  }

  /**
   * On exit the buffer is empty when the last day is forced out, and
   * otherwise empty or within a single day.
   */
  lemma SaveAllLeaves(buf: seq<Event>, files: Files, forceLast: bool)
    ensures var rest := SaveAll(buf, files, forceLast).0;
      && (forceLast ==> rest == [])
      && (rest == [] || DayOf(rest[0]) == DayOf(rest[|rest| - 1]))
  {
    SaveAllLeavesSuffix(buf, files, forceLast);
  }

  /** Saving never removes a day file nor any id from one. */
  lemma {:induction false} SaveAllKeepsIds(buf: seq<Event>, files: Files, forceLast: bool)
    ensures var out := SaveAll(buf, files, forceLast).1;
      forall d :: d in files ==> d in out && Ids(files[d]) <= Ids(out[d])
    decreases |buf|
  {
    if Pending(buf, forceLast) {
      var day := DayOf(buf[0]);
      var k := SameDayPrefix(buf, day);
      var files' := files[day := Merge(Stored(files, day), buf[..k])];
      MergeProperties(Stored(files, day), buf[..k]);
      SaveAllKeepsIds(buf[k..], files', forceLast);
    }
  }

  /**
   * Every event taken off the buffer ends up, by id, in the file of its
   * own day.
   */
  lemma {:induction false} SaveAllWritesConsumed(buf: seq<Event>, files: Files, forceLast: bool)
    ensures var (rest, out) := SaveAll(buf, files, forceLast);
      forall i :: 0 <= i < |buf| - |rest| ==> DayOf(buf[i]) in out && buf[i].id in Ids(out[DayOf(buf[i])])
    decreases |buf|
  {
    if Pending(buf, forceLast) {
      var day := DayOf(buf[0]);
      var k := SameDayPrefix(buf, day);
      var files' := files[day := Merge(Stored(files, day), buf[..k])];
      var (rest, out) := SaveAll(buf[k..], files', forceLast);
      MergeProperties(Stored(files, day), buf[..k]);
      IdsAppend(Stored(files, day), buf[..k]);
      SaveAllWritesConsumed(buf[k..], files', forceLast);
      SaveAllKeepsIds(buf[k..], files', forceLast);
      forall i | 0 <= i < |buf| - |rest|
        ensures DayOf(buf[i]) in out && buf[i].id in Ids(out[DayOf(buf[i])])
      {
        if i < k {
          assert buf[..k][i] == buf[i];
          assert buf[i] in buf[..k];
          assert buf[i].id in Ids(files'[day]);
        } else {
          assert buf[k..][i - k] == buf[i];
        }
      }
    }
  }

  /** A day none of whose events was taken off the buffer is left as it was. */
  lemma {:induction false} SaveAllUntouched(buf: seq<Event>, files: Files, forceLast: bool, d: string)
    requires var rest := SaveAll(buf, files, forceLast).0;
      forall i :: 0 <= i < |buf| - |rest| ==> DayOf(buf[i]) != d
    ensures var out := SaveAll(buf, files, forceLast).1;
      (d in out <==> d in files) && (d in files ==> out[d] == files[d])
    decreases |buf|
  {
    if Pending(buf, forceLast) {
      var day := DayOf(buf[0]);
      var k := SameDayPrefix(buf, day);
      var files' := files[day := Merge(Stored(files, day), buf[..k])];
      var tail := buf[k..];
      var rest := SaveAll(tail, files', forceLast).0;
      SaveAllDrain(tail, files', forceLast);
      DrainShorter(tail, DayOf, forceLast);
      assert DayOf(buf[0]) != d;
      SuffixAvoids(buf, k, |tail| - |rest|, DayOf, d);
      SaveAllUntouched(tail, files', forceLast, d);
    }
  }

  /** Keys that avoid `d` over the first `k + n` elements avoid it over the first `n` after `k`. */
  lemma SuffixAvoids<T>(s: seq<T>, k: nat, n: nat, key: T -> string, d: string)
    requires k + n <= |s|
    requires forall i :: 0 <= i < k + n ==> key(s[i]) != d
    ensures forall i :: 0 <= i < n ==> key(s[k..][i]) != d
  {
    forall i | 0 <= i < n ensures key(s[k..][i]) != d {
      assert s[k..][i] == s[k + i];
    }
  }

  /** Every file written is sorted by `ts` and free of repeated ids. */
  lemma {:induction false} SaveAllValid(buf: seq<Event>, files: Files, forceLast: bool)
    requires ValidFiles(files)
    ensures ValidFiles(SaveAll(buf, files, forceLast).1)
    decreases |buf|
  {
    if Pending(buf, forceLast) {
      var day := DayOf(buf[0]);
      var k := SameDayPrefix(buf, day);
      MergeProperties(Stored(files, day), buf[..k]);
      SaveAllValid(buf[k..], files[day := Merge(Stored(files, day), buf[..k])], forceLast);
    }
  }
}
