/**
 Recent activity page by page: a query for one row more than a page holds, and a
 cursor from the last row shown to the rows strictly after it.
 */
module Paging {
  import opened Options
  import opened Durations
  import opened Cursor

  const PAGE_SIZE := 25
  const QUERY_LIMIT := 26

  /** A joined row. `sound` says whether its author, topic and area columns pass their own checks. */
  datatype Row = Row(postID: Int64, createdAt: int, sound: bool)

  predicate ValidRow(r: Row) {
    r.postID > 0 && ValidMicrosecond(r.createdAt) && r.sound
  }

  /** The order of the page: newer first, and the larger identifier first among equal times. */
  predicate StrictlyAfter(previous: Row, current: Row) {
    current.createdAt < previous.createdAt
      || (current.createdAt == previous.createdAt && current.postID < previous.postID)
  }

  predicate Descending(rows: seq<Row>) {
    forall i, j | 0 <= i < j < |rows| :: StrictlyAfter(rows[i], rows[j])
  }

  datatype Page = Page(results: seq<Row>, next: Option<Boundary>)

  /** The page made of a query's rows, or none when they are malformed. */
  function PageOf(rows: seq<Row>): Option<Page> {
    if |rows| > QUERY_LIMIT || !(forall i | 0 <= i < |rows| :: ValidRow(rows[i])) || !Descending(rows) then None
    else if |rows| == QUERY_LIMIT then
      Some(Page(rows[..PAGE_SIZE], Some(Boundary(rows[PAGE_SIZE - 1].createdAt, rows[PAGE_SIZE - 1].postID))))
    else Some(Page(rows, None))
  }

  /** The rows are checked one against the next; the probe row is checked but not shown. */
  method FillPage(rows: seq<Row>) returns (r: Option<Page>)
    ensures r == PageOf(rows)
  {
    if |rows| > QUERY_LIMIT {
      return None;
    }
    var visible := if |rows| > PAGE_SIZE then PAGE_SIZE else |rows|;
    var results: seq<Row> := [];
    for index := 0 to |rows|
      invariant results == rows[..if index < visible then index else visible]
      invariant forall i | 0 <= i < index :: ValidRow(rows[i])
      invariant Descending(rows[..index])
    {
      if !ValidRow(rows[index]) || (index > 0 && !StrictlyAfter(rows[index - 1], rows[index])) {
        if index > 0 && Descending(rows) {
          assert StrictlyAfter(rows[index - 1], rows[index]);
        }
        return None;
      }
      if index < visible {
        results := results + [rows[index]];
      }
      DescendingMore(rows, index);
    }
    assert rows[..|rows|] == rows;
    var next: Option<Boundary> := None;
    if |rows| == QUERY_LIMIT {
      next := Some(Boundary(rows[PAGE_SIZE - 1].createdAt, rows[PAGE_SIZE - 1].postID));
    }
    return Some(Page(results, next));
  }

  lemma {:induction false} DescendingMore(rows: seq<Row>, index: nat)
    requires index < |rows| && Descending(rows[..index]) && (index > 0 ==> StrictlyAfter(rows[index - 1], rows[index]))
    ensures Descending(rows[..index + 1])
  {
    var more := rows[..index + 1];
    forall i, j | 0 <= i < j < |more|
      ensures StrictlyAfter(more[i], more[j])
    {
      if j < index {
        assert more[i] == rows[..index][i] && more[j] == rows[..index][j];
      } else if i < index - 1 {
        assert StrictlyAfter(rows[..index][i], rows[..index][index - 1]);
      }
    }
  }

  // ---- The query ----

  /** Identifiers are unique. */
  ghost predicate Distinct(visible: set<Row>) {
    forall r, s | r in visible && s in visible && r.postID == s.postID :: r == s
  }

  predicate Passes(r: Row, boundary: Option<Boundary>) {
    match boundary
    case None => true
    case Some(b) => r.createdAt < b.createdAt || (r.createdAt == b.createdAt && r.postID < b.postID)
  }

  function Remaining(visible: set<Row>, boundary: Option<Boundary>): set<Row> {
    set r | r in visible && Passes(r, boundary)
  }

  lemma {:induction false} Newest(rows: set<Row>) returns (m: Row)
    requires Distinct(rows) && rows != {}
    ensures m in rows && forall r | r in rows && r != m :: StrictlyAfter(m, r)
  {
    m :| m in rows;
    var rest := rows - {m};
    assert forall r | r in rows && r != m :: r in rest;
    if rest != {} {
      var n := Newest(rest);
      assert m.postID != n.postID;
      if StrictlyAfter(n, m) {
        forall r | r in rows && r != n
          ensures StrictlyAfter(n, r)
        {
          assert r == m || r in rest;
        }
        m := n;
      } else {
        forall r | r in rows && r != m
          ensures StrictlyAfter(m, r)
        {
          assert r == n || (r in rest && StrictlyAfter(n, r));
        }
      }
    }
  }

  /** The rows of a set, in order. */
  ghost function Ordered(rows: set<Row>): (s: seq<Row>)
    requires Distinct(rows)
    ensures |s| == |rows| && Descending(s)
    ensures forall r :: r in rows <==> r in s
  {
    if rows == {} then []
    else
      assert exists m :: m in rows && forall r | r in rows && r != m :: StrictlyAfter(m, r) by {
        var m := Newest(rows);
      }
      var m :| m in rows && forall r | r in rows && r != m :: StrictlyAfter(m, r);
      NewestFirst(rows, m, Ordered(rows - {m}));
      [m] + Ordered(rows - {m})
  }

  lemma {:induction false} NewestFirst(rows: set<Row>, m: Row, rest: seq<Row>)
    requires m in rows && forall r | r in rows && r != m :: StrictlyAfter(m, r)
    requires |rest| == |rows - {m}| && Descending(rest) && forall r :: r in rows - {m} <==> r in rest
    ensures |[m] + rest| == |rows| && Descending([m] + rest) && forall r :: r in rows <==> r in [m] + rest
  {
    var s := [m] + rest;
    forall i, j | 0 <= i < j < |s|
      ensures StrictlyAfter(s[i], s[j])
    {
      assert s[j] == rest[j - 1] && rest[j - 1] in rows - {m};
      assert i > 0 ==> s[i] == rest[i - 1];
    }
  }

  lemma {:induction false} FirstIsIn(b: seq<Row>)
    requires b != []
    ensures exists r :: r in b
  {
    assert b[0] in b;
  }

  /** Two strictly descending lists of the same rows are the same list. */
  lemma {:induction false} OrderIsUnique(a: seq<Row>, b: seq<Row>)
    requires Descending(a) && Descending(b) && forall r :: r in a <==> r in b
    ensures a == b
  {
    if a == [] {
      if b != [] {
        FirstIsIn(b);
        assert false;
      }
    } else {
      assert a[0] in b;
      assert b[0] in a;
      var j :| 0 <= j < |b| && b[j] == a[0];
      var i :| 0 <= i < |a| && a[i] == b[0];
      assert i == 0 && j == 0;
      TailRows(a, b);
      OrderIsUnique(a[1..], b[1..]);
    }
  }

  lemma {:induction false} TailRows(a: seq<Row>, b: seq<Row>)
    requires Descending(a) && Descending(b) && a != [] && b != [] && a[0] == b[0] && forall r :: r in a <==> r in b
    ensures forall r :: r in a[1..] <==> r in b[1..]
  {
    forall r
      ensures r in a[1..] <==> r in b[1..]
    {
      assert r in a[1..] <==> r in a && r != a[0];
      assert r in b[1..] <==> r in b && r != b[0];
    }
  }

  /** The boundary that a row leaves. */
  function BoundaryOf(r: Row): Boundary {
    Boundary(r.createdAt, r.postID)
  }

  /** The rows after the k-th are the rest of the list. */
  lemma {:induction false} AfterIsSuffix(visible: set<Row>, boundary: Option<Boundary>, k: nat)
    requires Distinct(visible) && k < |Ordered(Remaining(visible, boundary))|
    ensures var s := Ordered(Remaining(visible, boundary));
            Ordered(Remaining(visible, Some(BoundaryOf(s[k])))) == s[k + 1..]
  {
    var s := Ordered(Remaining(visible, boundary));
    SuffixIsAfter(visible, boundary, s, k);
    hide Ordered, Remaining;
    OrderIsUnique(Ordered(Remaining(visible, Some(BoundaryOf(s[k])))), s[k + 1..]);
  }

  lemma {:induction false} SuffixIsAfter(visible: set<Row>, boundary: Option<Boundary>, s: seq<Row>, k: nat)
    requires Descending(s) && (forall x :: x in Remaining(visible, boundary) <==> x in s) && k < |s|
    ensures Descending(s[k + 1..])
    ensures forall r :: r in Remaining(visible, Some(BoundaryOf(s[k]))) <==> r in s[k + 1..]
  {
    forall r
      ensures r in Remaining(visible, Some(BoundaryOf(s[k]))) <==> r in s[k + 1..]
    {
      if r in Remaining(visible, Some(BoundaryOf(s[k]))) {
        LaterIsInSuffix(visible, boundary, s, k, r);
      } else if r in s[k + 1..] {
        SuffixIsLater(visible, boundary, s, k, r);
      }
    }
  }

  lemma {:induction false} SuffixIsLater(visible: set<Row>, boundary: Option<Boundary>, s: seq<Row>, k: nat, r: Row)
    requires Descending(s) && (forall x :: x in Remaining(visible, boundary) <==> x in s)
    requires k < |s| && r in s[k + 1..]
    ensures r in Remaining(visible, Some(BoundaryOf(s[k])))
  {
    var i :| k + 1 <= i < |s| && s[i] == r;
    assert StrictlyAfter(s[k], s[i]) && s[i] in Remaining(visible, boundary);
  }

  lemma {:induction false} LaterIsInSuffix(visible: set<Row>, boundary: Option<Boundary>, s: seq<Row>, k: nat, r: Row)
    requires Descending(s) && (forall x :: x in Remaining(visible, boundary) <==> x in s)
    requires k < |s| && r in Remaining(visible, Some(BoundaryOf(s[k])))
    ensures r in s[k + 1..]
  {
    assert s[k] in Remaining(visible, boundary);
    assert r in Remaining(visible, boundary);
    var i :| 0 <= i < |s| && s[i] == r;
    assert s[k + 1..][i - k - 1] == r;
  }

  /** What the database returns: the first rows strictly after the boundary. */
  ghost function Query(visible: set<Row>, boundary: Option<Boundary>): seq<Row>
    requires Distinct(visible)
  {
    var s := Ordered(Remaining(visible, boundary));
    if |s| > QUERY_LIMIT then s[..QUERY_LIMIT] else s
  }

  ghost predicate Sound(visible: set<Row>) {
    Distinct(visible) && forall r | r in visible :: ValidRow(r)
  }

  /** One page: the next 25 rows, and a boundary from the last of them exactly when another row remains. */
  lemma {:induction false} PageIsNext(visible: set<Row>, boundary: Option<Boundary>)
    requires Sound(visible)
    ensures var s := Ordered(Remaining(visible, boundary)); var page := PageOf(Query(visible, boundary));
            && page.Some?
            && page.value.results == (if |s| > PAGE_SIZE then s[..PAGE_SIZE] else s)
            && (page.value.next.Some? <==> |page.value.results| < |s|)
            && (page.value.next.Some? ==>
                  page.value.next.value == BoundaryOf(s[PAGE_SIZE - 1])
                  && Ordered(Remaining(visible, page.value.next)) == s[PAGE_SIZE..])
  {
    hide Ordered, StrictlyAfter;
    var s, rows := Ordered(Remaining(visible, boundary)), Query(visible, boundary);
    forall i | 0 <= i < |rows|
      ensures ValidRow(rows[i])
    {
      assert rows[i] == s[i] && s[i] in Remaining(visible, boundary);
    }
    if |s| > PAGE_SIZE {
      AfterIsSuffix(visible, boundary, PAGE_SIZE - 1);
    }
  }

  // ---- Serving and following ----

  /** A served page: its rows and the text that leads to the next one. */
  datatype Served = Served(results: seq<Row>, cursor: Option<string>)

  type Database = Option<Boundary> -> seq<Row>

  /** One request inside one database snapshot, given the cursor already verified. */
  ghost function Activity(mac: Mac, query: Database, ring: Keyring, now: int, verified: Option<AuthenticatedCursor>,
        actor: Actor): Option<Served>
    requires IsMac(mac)
  {
    if !ValidMicrosecond(now) || !ValidKey(ring.active)
      || !(ring.active.notBefore <= now <= ring.active.issueNotAfter) then None
    else if verified.Some? && (!BelongsTo(verified.value, ring) || !ValidTime(verified.value, now)
                               || BindAudience(mac, verified.value, actor).None?) then None
    else
      var boundary := if verified.Some? then BindAudience(mac, verified.value, actor) else None;
      if !ValidActor(actor) then None
      else
        var page := PageOf(query(boundary));
        if page.None? then None
        else if page.value.next.None? then Some(Served(page.value.results, None))
        else
          var text := Issued(mac, ring, now, page.value.next.value, actor);
          if text.None? then None else Some(Served(page.value.results, text))
  }

  method RecentActivity(mac: Mac, query: Database, ring: Keyring, now: int, verified: Option<AuthenticatedCursor>,
        actor: Actor)
    returns (r: Option<Served>)
    requires IsMac(mac)
    ensures r == Activity(mac, query, ring, now, verified, actor)
  {
    if !ValidMicrosecond(now) || !ValidKey(ring.active) || now < ring.active.notBefore
      || now > ring.active.issueNotAfter {
      return None;
    }
    var boundary: Option<Boundary> := None;
    if verified.Some? {
      if !BelongsTo(verified.value, ring) || !ValidTime(verified.value, now) {
        return None;
      }
      var audience := StreamAudience(mac, verified.value.secret, actor);
      if audience.None? || audience.value != verified.value.audience {
        return None;
      }
      boundary := Some(verified.value.boundary);
    }
    if !ValidActor(actor) {
      return None;
    }
    var page := FillPage(query(boundary));
    if page.None? {
      return None;
    }
    if page.value.next.None? {
      return Some(Served(page.value.results, None));
    }
    var text := EncodeCursor(mac, ring, now, page.value.next.value, actor);
    if text.None? {
      return None;
    }
    return Some(Served(page.value.results, text));
  }

  /** A request as a reader makes it: with the text of a cursor, or without. */
  ghost function Request(mac: Mac, visible: set<Row>, ring: Keyring, now: int, text: Option<string>,
        actor: Actor): Option<Served>
    requires IsMac(mac) && Distinct(visible)
  {
    var verified := if text.Some? then VerifyCursor(mac, ring, text.value) else None;
    if text.Some? && verified.None? then None
    else Activity(mac, (b: Option<Boundary>) => Query(visible, b), ring, now, verified, actor)
  }

  /** A request's time and the keys it is read and answered under. */
  datatype Visit = Visit(ring: Keyring, now: int)

  /** All rows a reader sees by following the cursors, one request a visit. */
  ghost function Follow(mac: Mac, visible: set<Row>, visits: seq<Visit>, text: Option<string>,
        actor: Actor): Option<seq<Row>>
    requires IsMac(mac) && Distinct(visible)
  {
    if visits == [] then None
    else
      var page := Request(mac, visible, visits[0].ring, visits[0].now, text, actor);
      if page.None? then None
      else if page.value.cursor.None? then Some(page.value.results)
      else
        var rest := Follow(mac, visible, visits[1..], page.value.cursor, actor);
        if rest.None? then None else Some(page.value.results + rest.value)
  }

  /** The active key can issue at this time. */
  predicate Issues(visit: Visit) {
    && ValidKey(visit.ring.active) && ValidMicrosecond(visit.now)
    && visit.ring.active.notBefore <= visit.now <= visit.ring.active.issueNotAfter
  }

  /** A cursor issued at one time is read at another: not too late, and not before it was issued. */
  predicate InTime(issued: int, now: int) {
    issued / SECOND * SECOND - FUTURE_SKEW <= now <= issued / SECOND * SECOND + MAXIMUM_AGE
  }

  /**
   Every visit can issue, and comes within a day of the one before, whose active key is
   still active or the previous one.
   */
  ghost predicate Prompt(visits: seq<Visit>) {
    && (forall i | 0 <= i < |visits| :: Issues(visits[i]))
    && (forall i | 0 < i < |visits| ::
          InTime(visits[i - 1].now, visits[i].now) && Knows(visits[i].ring, visits[i - 1].ring.active))
  }

  /** A text that leads on from `boundary`: none before the first page, then what the page before issued. */
  ghost predicate LeadsOn(mac: Mac, visit: Visit, text: Option<string>, boundary: Option<Boundary>, actor: Actor)
    requires IsMac(mac)
  {
    match boundary
    case None => text == None
    case Some(b) => text.Some? && exists issuer :: LedFrom(mac, issuer, visit, text, b, actor)
  }

  ghost predicate LedFrom(mac: Mac, issuer: Visit, visit: Visit, text: Option<string>, b: Boundary, actor: Actor)
    requires IsMac(mac)
  {
    && Issued(mac, issuer.ring, issuer.now, b, actor) == text
    && InTime(issuer.now, visit.now) && Knows(visit.ring, issuer.ring.active)
  }

  /** What a snapshot serves once the cursor has given its boundary back. */
  lemma {:induction false} ActivityServes(mac: Mac, query: Database, ring: Keyring, now: int,
        verified: Option<AuthenticatedCursor>, boundary: Option<Boundary>, actor: Actor, page: Page)
    requires IsMac(mac) && CanonicalActor(actor) && Issues(Visit(ring, now))
    requires verified.None? <==> boundary.None?
    requires verified.Some? ==>
               BelongsTo(verified.value, ring) && ValidTime(verified.value, now)
                 && BindAudience(mac, verified.value, actor) == boundary
    requires PageOf(query(boundary)) == Some(page)
    requires page.next.Some? ==> Issued(mac, ring, now, page.next.value, actor).Some?
    ensures Activity(mac, query, ring, now, verified, actor)
            == Some(Served(page.results,
                           if page.next.Some? then Issued(mac, ring, now, page.next.value, actor) else None))
  {
    hide PageOf, Issued, BindAudience, BelongsTo, ValidTime;
  }

  /** A cursor that leads on verifies, is in time, and gives the boundary back. */
  lemma {:induction false} CursorLeadsOn(mac: Mac, visit: Visit, text: string, boundary: Boundary, actor: Actor)
    requires IsMac(mac) && LeadsOn(mac, visit, Some(text), Some(boundary), actor) && ValidMicrosecond(visit.now)
    ensures var verified := VerifyCursor(mac, visit.ring, text);
            && verified.Some? && BelongsTo(verified.value, visit.ring) && ValidTime(verified.value, visit.now)
            && BindAudience(mac, verified.value, actor) == Some(boundary)
  {
    hide Issued, VerifyCursor, BindAudience, BelongsTo, ValidTime, Knows;
    var issuer :| LedFrom(mac, issuer, visit, Some(text), boundary, actor);
    RoundTrip(mac, issuer.ring, visit.ring, issuer.now, boundary, actor);
    RetirementIsImplied(mac, visit.ring, text, visit.now);
    VerifiedTextIsUnique(mac, visit.ring, text);
    SameSecond(VerifyCursor(mac, visit.ring, text).value.issuedAt, issuer.now);
  }

  lemma {:induction false} SameSecond(second: int, t: int)
    requires ValidSecond(second) && second <= t < second + SECOND
    ensures second == t / SECOND * SECOND
  {
  }

  lemma {:induction false} NextIsValid(visible: set<Row>, boundary: Option<Boundary>)
    requires Sound(visible)
    ensures var page := PageOf(Query(visible, boundary));
            && page.Some?
            && (page.value.next.Some? ==>
                  ValidMicrosecond(page.value.next.value.createdAt) && page.value.next.value.postID > 0)
  {
    PageIsNext(visible, boundary);
  }

  /** The page after a boundary exists, and so does the cursor it needs. */
  lemma {:induction false} NextIssues(mac: Mac, visible: set<Row>, ring: Keyring, now: int,
        boundary: Option<Boundary>, actor: Actor)
    requires IsMac(mac) && Sound(visible) && CanonicalActor(actor) && Issues(Visit(ring, now))
    ensures var page := PageOf(Query(visible, boundary));
            page.Some? && (page.value.next.Some? ==> Issued(mac, ring, now, page.value.next.value, actor).Some?)
  {
    hide Query, PageOf, Issued, CanonicalActor;
    NextIsValid(visible, boundary);
    var page := PageOf(Query(visible, boundary)).value;
    if page.next.Some? {
      IssuesExactly(mac, ring, now, page.next.value, actor);
    }
  }

  /** Such a request is served the page after the boundary. */
  lemma {:induction false} Serves(mac: Mac, visible: set<Row>, visit: Visit, text: Option<string>,
        boundary: Option<Boundary>, actor: Actor)
    requires IsMac(mac) && Sound(visible) && CanonicalActor(actor)
    requires Issues(visit) && LeadsOn(mac, visit, text, boundary, actor)
    ensures var page, ring, now := PageOf(Query(visible, boundary)), visit.ring, visit.now;
            && page.Some?
            && Request(mac, visible, ring, now, text, actor)
               == Some(Served(page.value.results,
                              if page.value.next.Some? then Issued(mac, ring, now, page.value.next.value, actor)
                                else None))
            && (page.value.next.Some? ==> Issued(mac, ring, now, page.value.next.value, actor).Some?)
  {
    var ring, now := visit.ring, visit.now;
    assert ValidMicrosecond(now);
    hide Query, PageOf, Issued, VerifyCursor, BindAudience, BelongsTo, ValidTime, Activity, Issues, CanonicalActor,
         Distinct;
    NextIssues(mac, visible, ring, now, boundary, actor);
    var page := PageOf(Query(visible, boundary)).value;
    if boundary.Some? {
      CursorLeadsOn(mac, visit, text.value, boundary.value, actor);
    }
    var verified := if text.Some? then VerifyCursor(mac, ring, text.value) else None;
    ActivityServes(mac, (b: Option<Boundary>) => Query(visible, b), ring, now, verified, boundary, actor, page);
  }

  lemma {:induction false} PromptTail(visits: seq<Visit>)
    requires Prompt(visits) && |visits| > 1
    ensures Prompt(visits[1..]) && InTime(visits[0].now, visits[1].now) && Knows(visits[1].ring, visits[0].ring.active)
  {
    hide Issues, InTime, Knows;
    var rest := visits[1..];
    forall i | 0 < i < |rest|
      ensures InTime(rest[i - 1].now, rest[i].now) && Knows(rest[i].ring, rest[i - 1].ring.active)
    {
      assert rest[i] == visits[i + 1] && rest[i - 1] == visits[i + 1 - 1];
    }
    assert visits[1 - 1] == visits[0];
  }

  /**
   Following the cursors from any boundary over a fixed visible set ends, and what was
   shown is every remaining row, once, in order; keys may rotate on the way.
   */
  lemma {:induction false} FollowingFrom(mac: Mac, visible: set<Row>, visits: seq<Visit>, text: Option<string>,
        boundary: Option<Boundary>, actor: Actor)
    requires IsMac(mac) && Sound(visible) && CanonicalActor(actor) && Prompt(visits)
    requires visits != [] && LeadsOn(mac, visits[0], text, boundary, actor)
    requires |visits| * PAGE_SIZE >= |Ordered(Remaining(visible, boundary))|
    ensures Follow(mac, visible, visits, text, actor) == Some(Ordered(Remaining(visible, boundary)))
    decreases |visits|
  {
    hide Query, PageOf, Issued, VerifyCursor, Request, Ordered, Issues, InTime, Knows;
    var s, visit := Ordered(Remaining(visible, boundary)), visits[0];
    Serves(mac, visible, visit, text, boundary, actor);
    PageIsNext(visible, boundary);
    var page := PageOf(Query(visible, boundary)).value;
    if page.next.Some? {
      var cursor := Issued(mac, visit.ring, visit.now, page.next.value, actor);
      PromptTail(visits);
      assert LedFrom(mac, visit, visits[1], cursor, page.next.value, actor);
      FollowingFrom(mac, visible, visits[1..], cursor, page.next, actor);
      assert s == s[..PAGE_SIZE] + s[PAGE_SIZE..];
    }
  }

  /** From the first page: the whole visible set, each post once, in strictly descending order. */
  lemma {:induction false} FollowingShowsEverything(mac: Mac, visible: set<Row>, visits: seq<Visit>, actor: Actor)
    requires IsMac(mac) && Sound(visible) && CanonicalActor(actor) && Prompt(visits)
    requires visits != [] && |visits| * PAGE_SIZE >= |visible|
    ensures var shown := Follow(mac, visible, visits, None, actor);
            && shown.Some? && Descending(shown.value) && |shown.value| == |visible|
            && forall r :: r in visible <==> r in shown.value
  {
    hide Prompt, Follow, Issues;
    assert Remaining(visible, None) == visible;
    FollowingFrom(mac, visible, visits, None, None, actor);
  }
}
