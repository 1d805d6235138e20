/**
 * How `run.mjs` names senders and rooms: the fallback name taken from a
 * Matrix user id (`guessName`), the display name of a member event, the
 * update rule of the sender-name map, and the file-system-safe room
 * directory name (`sanitizeName`).
 */
module SenderNames {
  import opened Common
  import opened Seqs
  import opened Protocol

  /** The first index at or after `k` holding `:`, if any. */
  function NextColon(s: string, k: nat): (j: Option<nat>)
    requires k <= |s|
    ensures j.Some? ==> k <= j.value < |s| && s[j.value] == ':'
    ensures j.Some? ==> forall m :: k <= m < j.value ==> s[m] != ':'
    ensures j.None? ==> forall m :: k <= m < |s| ==> s[m] != ':'
    decreases |s| - k
  {
    if k == |s| then None
    else if s[k] == ':' then Some(k)
    else NextColon(s, k + 1)
  }

  /**
   * `/@([^:]+):/` matches starting at `i`: an `@`, then at least one
   * character before the next `:`.
   */
  predicate MatchesAt(s: string, i: nat) {
    i < |s| && s[i] == '@' && var j := NextColon(s, i + 1); j.Some? && j.value > i + 1
  }

  /** The capture group of the leftmost match at or after `i`. */
  function GuessFrom(s: string, i: nat): (r: Option<string>)
    requires i <= |s|
    ensures r.Some? ==> |r.value| >= 1 && ':' !in r.value
    decreases |s| - i
  {
    if i == |s| then None
    else if MatchesAt(s, i) then Some(s[i + 1..NextColon(s, i + 1).value])
    else GuessFrom(s, i + 1)
  }

  /**
   * `senderId.match(/@([^:]+):/)[1]`: the localpart of a user id. When
   * nothing matches, `null[1]` throws.
   */
  function GuessName(senderId: string): (r: Result<string, Thrown>)
    ensures r.Ok? ==> |r.value| >= 1 && ':' !in r.value
    ensures r.Err? <==> forall k :: 0 <= k < |senderId| ==> !MatchesAt(senderId, k)
  {
    GuessFromNone(senderId, 0);
    match GuessFrom(senderId, 0)
    case Some(n) => Ok(n)
    case None => Err(TypeError("[1] of a failed match"))
  }

  /** Nothing is captured exactly when nothing matches at or after `i`. */
  lemma {:induction false} GuessFromNone(s: string, i: nat)
    requires i <= |s|
    ensures GuessFrom(s, i).None? <==> forall k :: i <= k < |s| ==> !MatchesAt(s, k)
    decreases |s| - i
  {
    if i < |s| && !MatchesAt(s, i) {
      GuessFromNone(s, i + 1);
    }
  }

  /** `k` is the leftmost match at or after `i`. */
  predicate FirstMatch(s: string, i: nat, k: nat) {
    i <= k < |s| && MatchesAt(s, k) && forall m :: i <= m < k ==> !MatchesAt(s, m)
  }

  /** `GuessFrom` captures at the leftmost match. */
  lemma {:induction false} GuessFromLeftmost(s: string, i: nat, k: nat)
    requires FirstMatch(s, i, k)
    ensures GuessFrom(s, i) == Some(s[k + 1..NextColon(s, k + 1).value])
    decreases k - i
  {
    if k > i {
      assert FirstMatch(s, i + 1, k);
      GuessFromLeftmost(s, i + 1, k);
    }
  }

  /** The guessed name is the capture group of the leftmost match. */
  lemma GuessNameLeftmost(senderId: string, k: nat)
    requires FirstMatch(senderId, 0, k)
    ensures GuessName(senderId) == Ok(senderId[k + 1..NextColon(senderId, k + 1).value])
  {
    GuessFromLeftmost(senderId, 0, k);
  }

  /** A Matrix user id `@localpart:server` yields its localpart. */
  lemma GuessNameOfUserId(localpart: string, server: string)
    requires |localpart| >= 1 && ':' !in localpart
    ensures GuessName("@" + localpart + ":" + server) == Ok(localpart)
  {
    var s := "@" + localpart + ":" + server;
    var c := |localpart| + 1;
    assert s[c] == ':';
    forall m | 1 <= m < c ensures s[m] != ':' {
      assert s[m] == localpart[m - 1];
    }
    assert NextColon(s, 1) == Some(c) by {
      NextColonIsFirst(s, 1, c);
    }
    assert MatchesAt(s, 0);
    assert s[1..c] == localpart;
  }

  lemma {:induction false} NextColonIsFirst(s: string, k: nat, c: nat)
    requires k <= c < |s| && s[c] == ':' && forall m :: k <= m < c ==> s[m] != ':'
    ensures NextColon(s, k) == Some(c)
    decreases c - k
  {
    if k < c {
      NextColonIsFirst(s, k + 1, c);
    }
  }

  /** `m.content?.displayname ?? guessName(m.state_key)`. */
  function MemberDisplayname(stateKey: string, content: Option<MemberContent>): (r: Result<string, Thrown>)
    ensures DisplaynameOf(content).Some? ==> r == Ok(DisplaynameOf(content).value)
    ensures DisplaynameOf(content).None? ==> r == GuessName(stateKey)
  {
    match DisplaynameOf(content)
    case Some(d) => Ok(d)
    case None => GuessName(stateKey)
  }

  /**
   * `resolveMemberEvent`: a user not yet in the map is added under their
   * display name or guessed name; a known user is renamed only when the
   * event carries a display name.
   */
  function ResolveMember(names: map<string, string>, e: RoomEvent): (r: Result<map<string, string>, Thrown>)
    requires e.Member?
    ensures r.Ok? ==> e.stateKey in r.value && r.value.Keys == names.Keys + {e.stateKey}
    ensures r.Ok? ==> forall u :: u in names && u != e.stateKey ==> r.value[u] == names[u]
    ensures e.stateKey !in names ==>
      && (r.Ok? <==> MemberDisplayname(e.stateKey, e.memberContent).Ok?)
      && (r.Ok? ==> r.value[e.stateKey] == MemberDisplayname(e.stateKey, e.memberContent).value)
    ensures e.stateKey in names ==> r.Ok? && r.value[e.stateKey] == DisplaynameOf(e.memberContent).GetOr(names[e.stateKey])
  {
    if e.stateKey !in names then
      match MemberDisplayname(e.stateKey, e.memberContent)
      case Ok(n) => Ok(names[e.stateKey := n])
      case Err(x) => Err(x)
    else if DisplaynameOf(e.memberContent).Some? then
      Ok(names[e.stateKey := DisplaynameOf(e.memberContent).value])
    else
      Ok(names)
  }

  /** The characters `sanitizeName` keeps: `[A-Za-z0-9_ \-.]`. */
  predicate SafeNameChar(c: char) {
    ('A' <= c <= 'Z') || ('a' <= c <= 'z') || ('0' <= c <= '9') || c == '_' || c == ' ' || c == '-' || c == '.'
  }

  predicate AllSafe(s: string) {
    forall i :: 0 <= i < |s| ==> SafeNameChar(s[i])
  }

  /** Drops the maximal run of unsafe characters at the front of `s`. */
  function SkipUnsafe(s: string): (r: string)
    ensures |r| <= |s| && r == s[|s| - |r|..]
    ensures r == [] || SafeNameChar(r[0])
    ensures forall i :: 0 <= i < |s| - |r| ==> !SafeNameChar(s[i])
  {
    if s != [] && !SafeNameChar(s[0]) then
      var r := SkipUnsafe(s[1..]);
      assert s[1..][|s| - 1 - |r|..] == s[|s| - |r|..];
      assert forall i :: 1 <= i < |s| - |r| ==> s[i] == s[1..][i - 1];
      r
    else s
  }

  /**
   * `name.replace(/[^A-Za-z0-9_ \-\.]+/g, '_')`: every maximal run of
   * other characters becomes one `_`.
   */
  function SanitizeName(s: string): (r: string)
    ensures AllSafe(r)
    ensures |r| <= |s|
    decreases |s|
  {
    if s == [] then []
    else if SafeNameChar(s[0]) then [s[0]] + SanitizeName(s[1..])
    else "_" + SanitizeName(SkipUnsafe(s))
  }

  /** A name made only of allowed characters is left as it is. */
  lemma {:induction false} SanitizeSafeName(s: string)
    requires AllSafe(s)
    ensures SanitizeName(s) == s
  {
    if s != [] {
      SanitizeSafeName(s[1..]);
      assert s == [s[0]] + s[1..];
    }
  }

  /**
   * A maximal run `u` of disallowed characters between an allowed prefix
   * `a` and a rest `b` that starts allowed becomes a single `_`.
   */
  lemma SanitizeRun(a: string, u: string, b: string)
    requires AllSafe(a) && |u| >= 1 && (forall i :: 0 <= i < |u| ==> !SafeNameChar(u[i]))
    requires b == [] || SafeNameChar(b[0])
    ensures SanitizeName(a + u + b) == a + "_" + SanitizeName(b)
  {
    Assoc(a, u, b);
    SanitizeSafePrefix(a, u + b);
    ConsSplit(u, b);
    SkipRun(u, b);
    Assoc(a, "_", SanitizeName(b));
  }

  /** An allowed prefix comes through as it is. */
  lemma {:induction false} SanitizeSafePrefix(a: string, rest: string)
    requires AllSafe(a)
    ensures SanitizeName(a + rest) == a + SanitizeName(rest)
  {
    if a == [] {
      assert a + rest == rest;
    } else {
      SanitizeSafePrefix(a[1..], rest);
      ConsSplit(a, rest);
      ConsSplit(a, SanitizeName(rest));
    }
  }

  lemma {:induction false} SkipRun(u: string, b: string)
    requires forall i :: 0 <= i < |u| ==> !SafeNameChar(u[i])
    requires b == [] || SafeNameChar(b[0])
    ensures SkipUnsafe(u + b) == b
  {
    if u != [] {
      assert (u + b)[0] == u[0];
      assert (u + b)[1..] == u[1..] + b;
      SkipRun(u[1..], b);
    } else {
      assert u + b == b;
    }
  }
}
