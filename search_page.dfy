/**
 * `scripts/search.js`: the search page. A query is trimmed, checked for
 * length, escaped into an SQLite FTS5 `match` expression and sent with a
 * `limit` one larger than the page size, so that the page can tell whether
 * more results follow; "load more" asks again from the next offset.
 */
module SearchPage {
  import opened Common
  import opened Strings
  import opened RenderCommon

  // ---------------------------------------------------------------------
  // escapeForSql

  /** `s.replace(/\s+/g, ' ')`; `inRun` says the previous character was white space. */
  function Collapse(s: string, inRun: bool): string {
    if s == [] then []
    else if IsJsSpace(s[0]) then (if inRun then "" else " ") + Collapse(s[1..], true)
    else [s[0]] + Collapse(s[1..], false)
  }

  function CollapseSpace(s: string): string {
    Collapse(s, false)
  }

  /** The characters of `s` that are not white space, in order. */
  function Visible(s: string): string {
    if s == [] then [] else (if IsJsSpace(s[0]) then "" else [s[0]]) + Visible(s[1..])
  }

  /** The only white space is the plain space, and no two spaces are adjacent. */
  predicate SingleSpaced(s: string) {
    && (forall i :: 0 <= i < |s| && IsJsSpace(s[i]) ==> s[i] == ' ')
    && (forall i :: 0 <= i < |s| - 1 ==> !(s[i] == ' ' && s[i + 1] == ' '))
  }

  /**
   * Collapsing keeps every other character in order, leaves single plain
   * spaces only, and starts with a space only where the text (outside a
   * run) did.
   */
  lemma {:induction false} CollapseSpec(s: string, inRun: bool)
    ensures var r := Collapse(s, inRun);
      && Visible(r) == Visible(s)
      && SingleSpaced(r)
      && (r != [] && r[0] == ' ' ==> !inRun && s != [] && IsJsSpace(s[0]))
      && (s != [] && IsJsSpace(s[0]) && !inRun ==> r != [] && r[0] == ' ')
  {
    if s != [] {
      CollapseSpec(s[1..], IsJsSpace(s[0]));
      var rest := Collapse(s[1..], IsJsSpace(s[0]));
      var head: string := if IsJsSpace(s[0]) then (if inRun then "" else " ") else [s[0]];
      assert Collapse(s, inRun) == head + rest;
      VisibleConcat(head, rest);
      assert Visible(head) == (if IsJsSpace(s[0]) then "" else [s[0]]);
      assert Visible(s) == (if IsJsSpace(s[0]) then "" else [s[0]]) + Visible(s[1..]);
      SingleSpacedCons(head, rest);
    }
  }

  /** One character, or none, put before a single-spaced text keeps it single-spaced unless it makes two spaces. */
  lemma SingleSpacedCons(head: string, rest: string)
    requires SingleSpaced(rest) && |head| <= 1
    requires head != [] && IsJsSpace(head[0]) ==> head == " "
    requires head == " " ==> rest == [] || rest[0] != ' '
    ensures SingleSpaced(head + rest)
  {
    var r := head + rest;
    forall i | 0 <= i < |r| - 1 ensures !(r[i] == ' ' && r[i + 1] == ' ') {
      if i >= |head| {
        assert r[i] == rest[i - |head|] && r[i + 1] == rest[i + 1 - |head|];
      } else if head == " " {
        assert i == 0 && r[1] == rest[0];
      }
    }
  }

  lemma {:induction false} VisibleConcat(a: string, b: string)
    ensures Visible(a + b) == Visible(a) + Visible(b)
  {
    if a != [] {
      assert (a + b)[1..] == a[1..] + b;
      VisibleConcat(a[1..], b);
    } else {
      assert a + b == b;
    }
  }

  /** A single-spaced text collapses to itself: collapsing is idempotent. */
  lemma {:induction false} CollapseSingleSpaced(s: string, inRun: bool)
    requires SingleSpaced(s)
    requires inRun ==> s == [] || s[0] != ' '
    ensures Collapse(s, inRun) == s
  {
    if s != [] {
      assert SingleSpaced(s[1..]) by {
        forall i | 0 <= i < |s[1..]| - 1 ensures !(s[1..][i] == ' ' && s[1..][i + 1] == ' ') {
          assert s[1..][i] == s[i + 1] && s[1..][i + 1] == s[i + 2];
        }
      }
      if IsJsSpace(s[0]) {
        assert s[0] == ' ';
        assert |s| > 1 ==> s[1] != ' ';
      }
      CollapseSingleSpaced(s[1..], IsJsSpace(s[0]));
    }
  }

  lemma CollapseIdempotent(s: string)
    ensures CollapseSpace(CollapseSpace(s)) == CollapseSpace(s)
  {
    CollapseSpec(s, false);
    CollapseSingleSpaced(CollapseSpace(s), false);
  }

  /** How SQLite reads the body of a string literal: `''` stands for one `'`. */
  function Unquote(s: string): string
    decreases |s|
  {
    if s == [] then []
    else if |s| >= 2 && s[0] == '\'' && s[1] == '\'' then "'" + Unquote(s[2..])
    else [s[0]] + Unquote(s[1..])
  }

  /** Doubling every `'` leaves no lone quote: SQLite reads back exactly the text. */
  lemma {:induction false} UnquoteDoubled(s: string)
    ensures Unquote(ReplaceChar(s, '\'', "''")) == s
  {
    if s != [] {
      var rest := ReplaceChar(s[1..], '\'', "''");
      UnquoteDoubled(s[1..]);
      if s[0] == '\'' {
        var d := "''" + rest;
        assert ReplaceChar(s, '\'', "''") == d;
        assert d[2..] == rest;
        assert s == [s[0]] + s[1..];
      } else {
        var d := [s[0]] + rest;
        assert ReplaceChar(s, '\'', "''") == d;
        assert d[1..] == rest;
        assert s == [s[0]] + s[1..];
      }
    }
  }

  /** `s.replace(/[...]/g, ' ')`: every character of the class becomes a space. */
  function Blank(s: string, inClass: char -> bool): (r: string)
    ensures |r| == |s|
    ensures forall i :: 0 <= i < |s| ==> r[i] == if inClass(s[i]) then ' ' else s[i]
  {
    if s == [] then [] else [if inClass(s[0]) then ' ' else s[0]] + Blank(s[1..], inClass)
  }

  /** `[:-;]` as written: the range from `:` to `;`, which holds exactly those two characters. */
  predicate RangeClass(c: char) {
    ':' <= c <= ';'
  }

  /** The characters meant: `:` and `-`, which FTS5 query syntax gives a meaning, and `;`. */
  predicate FtsOperator(c: char) {
    c == ':' || c == '-' || c == ';'
  }

  /** `escapeForSql` as written. */
  function EscapeForSqlAsWritten(s: string): string {
    Blank(ReplaceChar(CollapseSpace(s), '\'', "''"), RangeClass)
  }

  /** `escapeForSql` with the class that leaves no FTS5 operator among `:`, `-` and `;`. */
  function EscapeForSql(s: string): string {
    Blank(ReplaceChar(CollapseSpace(s), '\'', "''"), FtsOperator)
  }

  /** Which `escapeForSql` a page runs: the one as written, or the corrected one. */
  datatype Escaping = AsWritten | Corrected

  function Escape(esc: Escaping, s: string): string {
    match esc
    case AsWritten => EscapeForSqlAsWritten(s)
    case Corrected => EscapeForSql(s)
  }

  /** Blanking and quote doubling touch different characters, so their order does not matter. */
  lemma {:induction false} BlankDoubled(s: string, inClass: char -> bool)
    requires !inClass('\'')
    ensures Blank(ReplaceChar(s, '\'', "''"), inClass) == ReplaceChar(Blank(s, inClass), '\'', "''")
  {
    if s != [] {
      BlankDoubled(s[1..], inClass);
      var head: string := if s[0] == '\'' then "''" else [s[0]];
      BlankConcat(head, ReplaceChar(s[1..], '\'', "''"), inClass);
      assert Blank(s, inClass) == [Blank(s, inClass)[0]] + Blank(s[1..], inClass);
    }
  }

  lemma BlankConcat(a: string, b: string, inClass: char -> bool)
    ensures Blank(a + b, inClass) == Blank(a, inClass) + Blank(b, inClass)
  {
    var l := Blank(a + b, inClass);
    var r := Blank(a, inClass) + Blank(b, inClass);
    forall i | 0 <= i < |l| ensures l[i] == r[i] {
      if i < |a| {
        assert (a + b)[i] == a[i];
      } else {
        assert (a + b)[i] == b[i - |a|];
      }
    }
  }

  /** Every character of the doubled text is a character of the text or a quote. */
  lemma {:induction false} DoubledChars(s: string)
    ensures forall x :: x in ReplaceChar(s, '\'', "''") ==> x in s || x == '\''
  {
    if s != [] {
      DoubledChars(s[1..]);
      var head: string := if s[0] == '\'' then "''" else [s[0]];
      assert ReplaceChar(s, '\'', "''") == head + ReplaceChar(s[1..], '\'', "''");
      assert forall x :: x in s[1..] ==> x in s;
    }
  }

  /** The only white space is the plain space. */
  predicate PlainSpacesOnly(s: string) {
    forall i :: 0 <= i < |s| && IsJsSpace(s[i]) ==> s[i] == ' '
  }

  /**
   * The escaped query, read back by SQLite as a string literal, is the
   * query with white space collapsed and the operators blanked; it holds no
   * operator and no white space but plain spaces.
   */
  lemma EscapeForSqlSpec(s: string)
    ensures var r := EscapeForSql(s);
      && Unquote(r) == Blank(CollapseSpace(s), FtsOperator)
      && (forall i :: 0 <= i < |r| ==> !FtsOperator(r[i]))
      && PlainSpacesOnly(r)
  {
    var c := CollapseSpace(s);
    BlankDoubled(c, FtsOperator);
    UnquoteDoubled(Blank(c, FtsOperator));
    CollapseSpec(s, false);
    DoubledChars(c);
    var d := ReplaceChar(c, '\'', "''");
    forall i | 0 <= i < |d| && IsJsSpace(d[i]) ensures d[i] == ' ' {
      assert d[i] in d;
    }
  }

  /** As written, a `-` reaches the FTS5 query, where it is an operator. */
  lemma EscapeForSqlAsWrittenKeepsMinus()
    ensures EscapeForSqlAsWritten("a-b") == "a-b"
    ensures EscapeForSql("a-b") == "a b"
  {
    MinusQueryUnquoted();
    var asWritten := Blank("a-b", RangeClass);
    assert asWritten[0] == 'a' && asWritten[1] == '-' && asWritten[2] == 'b';
    var corrected := Blank("a-b", FtsOperator);
    assert corrected[0] == 'a' && corrected[1] == ' ' && corrected[2] == 'b';
  }

  /** `a-b` has no white space and no quote, so collapsing and doubling quotes keep it. */
  lemma MinusQueryUnquoted()
    ensures ReplaceChar(CollapseSpace("a-b"), '\'', "''") == "a-b"
  {
    assert CollapseSpace("a-b") == "a-b" by {
      assert !IsJsSpace('a') && !IsJsSpace('-') && !IsJsSpace('b');
      assert Collapse("b", false) == "b";
      assert Collapse("-b", false) == "-b";
    }
    assert ReplaceChar("a-b", '\'', "''") == "a-b" by {
      assert ReplaceChar("b", '\'', "''") == "b";
      assert ReplaceChar("-b", '\'', "''") == "-b";
    }
  }

  // ---------------------------------------------------------------------
  // The search state and one search

  /** Results per page. */
  const PerPage: nat := 30

  /** The sort order selected on the page. */
  datatype Order = Oldest | Newest

  /** `sort.value`. */
  function OrderName(o: Order): string {
    if o == Newest then "newest" else "oldest"
  }

  /** A row of the `search` table. */
  datatype Row = Row(sender: string, ts: int, idx: int, content: string)

  /**
   * The query sent to the database: the escaped `match` pattern,
   * `desc` for the newest-first order, the `limit` and the `offset`.
   */
  datatype Query = Query(pattern: string, newest: bool, limit: nat, offset: int)

  /** What the database answers: the rows, or the message of the error it raised. */
  type Db = Query -> Result<seq<Row>, string>

  /** An item of the results list: the text `no results`, or a rendered row. */
  datatype Item = NoResults | Line(row: Row)

  /** The page's state: the closure variables and what the page shows. */
  datatype View = View(
    previousSearch: string,
    nextOffset: int,
    isMore: bool,
    lastSort: Order,
    storedSort: Option<string>,
    urlQuery: Option<string>,
    output: seq<Item>,
    thinking: bool,
    errorShown: bool,
    errorText: string,
    loadMoreShown: bool)

  /** `s.includes(sub)`. */
  predicate Contains(s: string, sub: string) {
    StartsWith(s, sub) || (s != [] && Contains(s[1..], sub))
  }

  /** The message shown for an error: a friendlier text when the request limit was reached. */
  function ErrorText(message: string): string {
    if Contains(message, "request limit reached") then "too many requests, try again?" else "error: " + message
  }

  /** The `catch` block: the error is shown, the spinner hidden, and "load more" as before. */
  function Failed(v: View, message: string): View {
    v.(errorText := ErrorText(message), errorShown := true, thinking := false, loadMoreShown := v.isMore)
  }

  /** The rows as list items. */
  function Lines(rows: seq<Row>): (items: seq<Item>)
    ensures |items| == |rows| && forall i :: 0 <= i < |rows| ==> items[i] == Line(rows[i])
  {
    seq(|rows|, i requires 0 <= i < |rows| => Line(rows[i]))
  }

  /** The error thrown for a query that is too short. */
  const ShortQuery: string := "must be at least 3 characters"

  /** The offset searched from: the first result when the sort order changed. */
  function StartOffset(v: View, offset: int, sort: Order): int {
    if sort != v.lastSort then 0 else offset
  }

  /**
   * Before the query runs: a changed order is stored and resets the offset;
   * a search from the first result clears the results and becomes the
   * previous search; the spinner shows and the error and "load more" hide.
   */
  function Started(v: View, q: string, offset: int, sort: Order): View {
    var v1 := if sort != v.lastSort then v.(storedSort := Some(OrderName(sort)), lastSort := sort) else v;
    var v2 := if StartOffset(v, offset, sort) == 0 then v1.(output := [], previousSearch := q, urlQuery := Some(q)) else v1;
    v2.(thinking := true, errorShown := false, loadMoreShown := false)
  }

  /**
   * A page of at most `PerPage + 1` rows from offset `off`: more follow
   * exactly when the extra row came, and the page shown is cut to `PerPage`.
   */
  function PageShown(v: View, page: seq<Row>, off: int): View {
    var more := |page| > PerPage;
    var rows := if more then page[..PerPage] else page;
    v.(nextOffset := off + PerPage, thinking := false, isMore := more, loadMoreShown := more,
       output := if |rows| == 0 && off == 0 then [NoResults] else v.output + Lines(rows))
  }

  /** `search(query, offset)` with the sort order `sort` selected, against the database `db`. */
  function Searched(v: View, query: string, offset: int, sort: Order, db: Db, esc: Escaping): View {
    var q := Trim(query);
    if q == [] then v
    else if |q| < 3 then Failed(v, ShortQuery)
    else
      var off := StartOffset(v, offset, sort);
      var started := Started(v, q, offset, sort);
      match db(Query(Escape(esc, q), sort == Newest, PerPage + 1, off))
      case Err(message) => Failed(started, message)
      case Ok(page) => PageShown(started, page, off)
  }

  /** The closure of `load`: the search state and the parts of the page it changes. */
  class SearchSession {
    var previousSearch: string
    var nextOffset: int
    var isMore: bool
    var lastSort: Order
    var storedSort: Option<string>
    var urlQuery: Option<string>
    var output: seq<Item>
    var thinking: bool
    var errorShown: bool
    var errorText: string
    var loadMoreShown: bool

    function State(): View
      reads this
    {
      View(previousSearch, nextOffset, isMore, lastSort, storedSort, urlQuery, output, thinking, errorShown, errorText, loadMoreShown)
    }

    /** The page as loaded: the order is `newest` when that was stored, `oldest` otherwise. */
    constructor (stored: Option<string>, fromUrl: Option<string>)
      ensures State() == View("", 0, false, if stored == Some("newest") then Newest else Oldest, stored, fromUrl, [], false, false, "", false)
    {
      previousSearch := "";
      nextOffset := 0;
      isMore := false;
      lastSort := if stored == Some("newest") then Newest else Oldest;
      storedSort := stored;
      urlQuery := fromUrl;
      output := [];
      thinking := false;
      errorShown := false;
      errorText := "";
      loadMoreShown := false;
    }

    /** The `catch` block. */
    method Fail(message: string)
      modifies this
      ensures State() == Failed(old(State()), message)
    {
      errorText := if Contains(message, "request limit reached") then "too many requests, try again?" else "error: " + message;
      errorShown := true;
      thinking := false;
      loadMoreShown := isMore;
    }

    /** `output.append(renderLine(result))` for each row of the page. */
    method AppendRows(page: seq<Row>)
      modifies this
      ensures State() == old(State()).(output := old(output) + Lines(page))
    {
      for i := 0 to |page|
        invariant State() == old(State()).(output := old(output) + Lines(page[..i]))
      {
        output := output + [Line(page[i])];
        assert Lines(page[..i + 1]) == Lines(page[..i]) + [Line(page[i])];
      }
      assert page[..|page|] == page;
    }

    /** The part of `search` before the query runs; `off` is the offset searched from. */
    method Start(q: string, offset: int, sort: Order) returns (off: int)
      modifies this
      ensures off == StartOffset(old(State()), offset, sort)
      ensures State() == Started(old(State()), q, offset, sort)
    {
      off := offset;
      if sort != lastSort {
        off := 0;
        storedSort := Some(OrderName(sort));
        lastSort := sort;
      }
      if off == 0 {
        output := [];
        previousSearch := q;
        urlQuery := Some(q);
      }
      thinking := true;
      errorShown := false;
      loadMoreShown := false;
    }

    /** The part of `search` after the query answered with `page`. */
    method Show(page: seq<Row>, off: int)
      modifies this
      ensures State() == PageShown(old(State()), page, off)
    {
      var page := page;
      nextOffset := off + PerPage;
      thinking := false;
      isMore := |page| > PerPage;
      if isMore {
        page := page[..PerPage];
      }
      loadMoreShown := isMore;
      if |page| == 0 && off == 0 {
        output := [NoResults];
      } else {
        AppendRows(page);
      }
    }

    /**
     * `search(query, offset)`, with `sort` selected on the page; the page
     * itself runs `escapeForSql` as written (`esc == AsWritten`).
     */
    method Search(query: string, offset: int, sort: Order, db: Db, esc: Escaping)
      modifies this
      ensures State() == Searched(old(State()), query, offset, sort, db, esc)
    {
      var q := Trim(query);
      if q == [] {
        return;
      }
      if |q| < 3 {
        Fail(ShortQuery);
        return;
      }
      var off := Start(q, offset, sort);
      var answer := db(Query(Escape(esc, q), sort == Newest, PerPage + 1, off));
      if answer.Err? {
        Fail(answer.error);
        return;
      }
      Show(answer.value, off);
    }

    /** The search button and the Enter key: a new search from the first result. */
    method StartSearch(query: string, sort: Order, db: Db, esc: Escaping)
      modifies this
      ensures State() == Searched(old(State()), query, 0, sort, db, esc)
    {
      Search(query, 0, sort, db, esc);
    }

    /** The "load more" button: the previous search from the next offset. */
    method LoadMore(sort: Order, db: Db, esc: Escaping)
      modifies this
      ensures State() == Searched(old(State()), old(previousSearch), old(nextOffset), sort, db, esc)
    {
      Search(previousSearch, nextOffset, sort, db, esc);
    }
  }

  // ---------------------------------------------------------------------
  // What a search does

  /** Trimming a trimmed query changes nothing. */
  lemma TrimTwice(s: string)
    ensures Trim(Trim(s)) == Trim(s)
  {
    var u := TrimStart(s);
    var t := TrimEnd(u);
    TrimStartSuffix(s);
    TrimEndPrefix(u);
    if t != [] {
      assert t[0] == u[0];
      assert TrimStart(t) == t;
    }
  }

  /**
   * A blank query changes nothing; a query shorter than three characters
   * once trimmed shows the error and changes nothing else.
   */
  lemma SearchedGuards(v: View, query: string, offset: int, sort: Order, db: Db, esc: Escaping)
    ensures Trim(query) == [] ==> Searched(v, query, offset, sort, db, esc) == v
    ensures 0 < |Trim(query)| < 3 ==>
      Searched(v, query, offset, sort, db, esc) == v.(errorText := "error: " + ShortQuery, errorShown := true, thinking := false, loadMoreShown := v.isMore)
  {
    if 0 < |Trim(query)| < 3 {
      assert !Contains(ShortQuery, "request limit reached") by {
        NotContainsShort(ShortQuery, "request limit reached", 0);
      }
    }
  }

  /** `s[k..]` does not contain `sub` when no position from `k` leaves room for it or starts it. */
  lemma {:induction false} NotContainsShort(s: string, sub: string, k: nat)
    requires k <= |s| && |sub| > 0
    requires forall i :: k <= i < |s| && i + |sub| <= |s| ==> s[i] != sub[0]
    ensures !Contains(s[k..], sub)
    decreases |s| - k
  {
    var t := s[k..];
    if k + |sub| <= |s| {
      assert t[..|sub|][0] == s[k];
    }
    if k < |s| {
      assert t[1..] == s[k + 1..];
      NotContainsShort(s, sub, k + 1);
    }
  }

  /** Changing the sort order searches again from the first result. */
  lemma SortChangeRestarts(v: View, query: string, offset: int, sort: Order, db: Db, esc: Escaping)
    requires sort != v.lastSort && |Trim(query)| >= 3
    ensures Searched(v, query, offset, sort, db, esc) == Searched(v.(storedSort := Some(OrderName(sort)), lastSort := sort), query, 0, sort, db, esc)
  {
  }

  /** `x` held within `0..n`. */
  function Clamp(x: int, n: nat): (r: nat)
    ensures r <= n
  {
    if x < 0 then 0 else if x > n then n else x
  }

  /** A database whose rows for the query are `all`, in order: `limit` and `offset` select a slice. */
  function Slices(all: seq<Row>): Db {
    (q: Query) => var lo := Clamp(q.offset, |all|); var hi := Clamp(q.offset + q.limit, |all|); Ok(all[lo..hi])
  }

  /** A search for `query` from the first result, then `k` presses of "load more". */
  function Loads(v: View, query: string, sort: Order, db: Db, k: nat, esc: Escaping): View {
    if k == 0 then Searched(v, query, 0, sort, db, esc)
    else
      var w := Loads(v, query, sort, db, k - 1, esc);
      Searched(w, w.previousSearch, w.nextOffset, sort, db, esc)
  }

  lemma LinesConcat(a: seq<Row>, b: seq<Row>)
    ensures Lines(a + b) == Lines(a) + Lines(b)
  {
  }

  /**
   * The state after the results up to `n` were shown for the query `q`:
   * exactly the first `n` rows (or `no results` when there are none), and
   * "load more" exactly when more rows exist.
   */
  predicate PagedAt(w: View, q: string, sort: Order, all: seq<Row>, n: int) {
    && w.previousSearch == q && w.lastSort == sort && w.nextOffset == n
    && w.isMore == (|all| > n) && w.loadMoreShown == w.isMore && !w.errorShown && !w.thinking
    && w.output == if all == [] then [NoResults] else Lines(all[..Clamp(n, |all|)])
  }

  /** The first page: the search from the first result asks for one row more than it shows. */
  lemma FirstPage(v: View, query: string, sort: Order, all: seq<Row>, esc: Escaping)
    requires |Trim(query)| >= 3
    ensures PagedAt(Searched(v, query, 0, sort, Slices(all), esc), Trim(query), sort, all, PerPage)
  {
    var q := Trim(query);
    var page := all[0..Clamp(PerPage + 1, |all|)];
    assert Slices(all)(Query(Escape(esc, q), sort == Newest, PerPage + 1, 0)) == Ok(page);
    var started := Started(v, q, 0, sort);
    assert started.output == [] && started.previousSearch == q && started.lastSort == sort;
    SearchedFirst(v, query, sort, Slices(all), page, esc);
    var rows := if |page| > PerPage then page[..PerPage] else page;
    assert rows == all[..Clamp(PerPage, |all|)];
  }

  /** A search from the first result, with a query long enough, shows the page the database answers. */
  lemma SearchedFirst(v: View, query: string, sort: Order, db: Db, page: seq<Row>, esc: Escaping)
    requires |Trim(query)| >= 3
    requires db(Query(Escape(esc, Trim(query)), sort == Newest, PerPage + 1, 0)) == Ok(page)
    ensures Searched(v, query, 0, sort, db, esc) == PageShown(Started(v, Trim(query), 0, sort), page, 0)
  {
  }

  /** A search whose query is long enough, in the order already selected, from a later result, shows the page the database answers. */
  lemma SearchedPage(w: View, query: string, off: int, sort: Order, db: Db, page: seq<Row>, esc: Escaping)
    requires |Trim(query)| >= 3 && sort == w.lastSort && off != 0
    requires db(Query(Escape(esc, Trim(query)), sort == Newest, PerPage + 1, off)) == Ok(page)
    ensures Searched(w, query, off, sort, db, esc) == PageShown(w.(thinking := true, errorShown := false, loadMoreShown := false), page, off)
  {
  }

  /** The page from a later offset `m` continues the rows shown up to `m`, and has the extra row exactly when more rows follow it. */
  lemma NextRows(all: seq<Row>, m: int)
    requires m > 0
    ensures var page := all[Clamp(m, |all|)..Clamp(m + PerPage + 1, |all|)];
            var rows := if |page| > PerPage then page[..PerPage] else page;
            && (|page| > PerPage <==> |all| > m + PerPage)
            && Lines(all[..Clamp(m, |all|)]) + Lines(rows) == Lines(all[..Clamp(m + PerPage, |all|)])
  {
    var page := all[Clamp(m, |all|)..Clamp(m + PerPage + 1, |all|)];
    var rows := if |page| > PerPage then page[..PerPage] else page;
    var a := Clamp(m, |all|);
    var b := Clamp(m + PerPage, |all|);
    assert rows == all[a..b];
    assert all[..a] + rows == all[..b];
    LinesConcat(all[..a], rows);
  }

  /** "Load more" after the first `m` results shows the next page, and no more. */
  lemma NextPage(w: View, q: string, sort: Order, all: seq<Row>, m: int, esc: Escaping)
    requires PagedAt(w, q, sort, all, m) && m > 0 && |Trim(q)| >= 3
    ensures PagedAt(Searched(w, q, m, sort, Slices(all), esc), q, sort, all, m + PerPage)
  {
    var page := all[Clamp(m, |all|)..Clamp(m + PerPage + 1, |all|)];
    assert Slices(all)(Query(Escape(esc, Trim(q)), sort == Newest, PerPage + 1, m)) == Ok(page);
    SearchedPage(w, q, m, sort, Slices(all), page, esc);
    NextRows(all, m);
  }

  /** One more "load more" keeps the paging property, `PerPage` rows further on. */
  lemma LoadsNext(v: View, query: string, sort: Order, all: seq<Row>, k: nat, esc: Escaping)
    requires |Trim(query)| >= 3 && k > 0
    requires PagedAt(Loads(v, query, sort, Slices(all), k - 1, esc), Trim(query), sort, all, PerPage * k)
    ensures PagedAt(Loads(v, query, sort, Slices(all), k, esc), Trim(query), sort, all, PerPage * (k + 1))
  {
    var w := Loads(v, query, sort, Slices(all), k - 1, esc);
    TrimTwice(query);
    NextPage(w, Trim(query), sort, all, PerPage * k, esc);
  }

  /**
   * Paging: after a search and `k` loads, the results shown are exactly the
   * first `PerPage * (k + 1)` rows (or `no results` when there are none),
   * and "load more" shows exactly when more rows exist; the one extra row
   * asked for is what tells.
   */
  lemma {:induction false} PagingSpec(v: View, query: string, sort: Order, all: seq<Row>, k: nat, esc: Escaping)
    requires |Trim(query)| >= 3
    ensures PagedAt(Loads(v, query, sort, Slices(all), k, esc), Trim(query), sort, all, PerPage * (k + 1))
  {
    if k == 0 {
      FirstPage(v, query, sort, all, esc);
    } else {
      PagingSpec(v, query, sort, all, k - 1, esc);
      LoadsNext(v, query, sort, all, k, esc);
    }
  }
}

