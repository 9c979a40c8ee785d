/** Cursor pagination of message history, shared by the channel and the direct
    conversation history endpoints: newest first in the query, `limit + 1` rows
    fetched to learn whether more exist, and the page handed out oldest first. */
module Pagination {
  import opened Common
  import opened Schema

  const DefaultLimit: nat := 50
  const MinLimit: int := 1
  const MaxLimit: int := 100
  /** Without a cursor only the last three days are listed. */
  const DefaultWindowSeconds: int := 3 * 24 * 3600

  // ---------------------------------------------------------------------------
  // Sequences of rows
  // ---------------------------------------------------------------------------

  function Reverse<T>(xs: seq<T>): (r: seq<T>)
    ensures |r| == |xs|
    ensures forall i :: 0 <= i < |xs| ==> r[i] == xs[|xs| - 1 - i]
  {
    if |xs| == 0 then [] else Reverse(xs[1..]) + [xs[0]]
  }

  /** Newest first (the `orderBy('created_at', 'desc')` of the query). */
  predicate SortedDesc(xs: seq<Message>) {
    forall i, j :: 0 <= i < j < |xs| ==> xs[j].createdAt <= xs[i].createdAt
  }

  /** Oldest first, the order pages are handed out in. */
  predicate SortedAsc(xs: seq<Message>) {
    forall i, j :: 0 <= i < j < |xs| ==> xs[i].createdAt <= xs[j].createdAt
  }

  /** Newest first with no two rows sharing a timestamp. */
  predicate StrictlyDesc(xs: seq<Message>) {
    forall i, j :: 0 <= i < j < |xs| ==> xs[j].createdAt < xs[i].createdAt
  }

  function Insert(m: Message, ys: seq<Message>): (r: seq<Message>)
    requires SortedDesc(ys)
    ensures SortedDesc(r)
    ensures multiset(r) == multiset(ys) + multiset{m}
    decreases |ys|
  {
    if |ys| == 0 || ys[0].createdAt <= m.createdAt then
      [m] + ys
    else
      var rest := Insert(m, ys[1..]);
      InsertBehindHead(m, ys, rest);
      [ys[0]] + rest
  }

  /** The newest row followed by the rest with an older row inserted: still
      newest first, and the rows are those of `ys` plus `m`. */
  lemma InsertBehindHead(m: Message, ys: seq<Message>, rest: seq<Message>)
    requires SortedDesc(ys) && |ys| > 0 && m.createdAt < ys[0].createdAt
    requires SortedDesc(rest) && multiset(rest) == multiset(ys[1..]) + multiset{m}
    ensures SortedDesc([ys[0]] + rest)
    ensures multiset([ys[0]] + rest) == multiset(ys) + multiset{m}
  {
    forall x | x in rest
      ensures x.createdAt <= ys[0].createdAt
    {
      assert x in multiset(rest);
      assert x == m || x in multiset(ys[1..]);
    }
    assert ys == [ys[0]] + ys[1..];
  }

  /** Orders rows newest first. SQL leaves the order of equal timestamps open;
      here they keep table order. */
  function SortDesc(xs: seq<Message>): (r: seq<Message>)
    ensures SortedDesc(r)
    ensures multiset(r) == multiset(xs)
    decreases |xs|
  {
    if |xs| == 0 then []
    else
      assert xs == [xs[0]] + xs[1..];
      Insert(xs[0], SortDesc(xs[1..]))
  }

  /** Filtering keeps the relative order, so it keeps newest-first order. */
  lemma {:induction false} FilterSortedDesc(xs: seq<Message>, f: Message -> bool)
    requires SortedDesc(xs)
    ensures SortedDesc(Filter(xs, f))
    decreases |xs|
  {
    if |xs| > 0 {
      FilterSortedDesc(xs[1..], f);
      var rest := Filter(xs[1..], f);
      if f(xs[0]) {
        forall j | 0 <= j < |rest|
          ensures rest[j].createdAt <= xs[0].createdAt
        {
          assert rest[j] in xs[1..];
        }
      }
    }
  }

  lemma ReverseDescIsAsc(xs: seq<Message>)
    requires SortedDesc(xs)
    ensures SortedAsc(Reverse(xs))
  {
  }

  // ---------------------------------------------------------------------------
  // The query
  // ---------------------------------------------------------------------------

  /** The messages of one channel or conversation; the soft-delete scope hides
      deleted rows. */
  function Visible(ms: seq<Message>, owner: Messageable): (r: seq<Message>)
    ensures forall m :: m in r <==> m in ms && m.owner == owner && !m.deleted
  {
    Filter(ms, (m: Message) => m.owner == owner && !m.deleted)
  }

  /** The whole visible history of one owner, newest first. */
  function History(ms: seq<Message>, owner: Messageable): (h: seq<Message>)
    ensures SortedDesc(h)
    ensures multiset(h) == multiset(Visible(ms, owner))
    ensures forall m :: m in h <==> m in ms && m.owner == owner && !m.deleted
  {
    var h := SortDesc(Visible(ms, owner));
    assert forall m :: m in h <==> m in multiset(h);
    h
  }

  /** The time filter of the query. */
  datatype Cutoff =
    | OlderThan(time: int)  // a cursor: `created_at < cursor.created_at`
    | Since(time: int)      // no cursor: `created_at >= now - 3 days`
    | Unbounded             // a cursor whose row the soft-delete scope hides

  predicate Admits(c: Cutoff, m: Message) {
    match c
    case OlderThan(t) => m.createdAt < t
    case Since(t) => m.createdAt >= t
    case Unbounded => true
  }

  /** The cursor is looked up with `Message::find`: when it names a soft-deleted
      row the lookup fails and no time filter is applied at all. */
  function CutoffOf(ms: seq<Message>, before: Option<Id>, now: int): (c: Cutoff)
    ensures before.None? ==> c == Since(now - DefaultWindowSeconds)
    ensures before.Some? && Find(ms, before.value).Some? ==> c == OlderThan(Find(ms, before.value).value.createdAt)
    ensures before.Some? && Find(ms, before.value).None? ==> c.Unbounded?
  {
    match before
    case None => Since(now - DefaultWindowSeconds)
    case Some(id) =>
      match Find(ms, id)
      case Some(cursor) => OlderThan(cursor.createdAt)
      case None => Unbounded
  }

  /** The rows the query orders and limits. */
  function Candidates(ms: seq<Message>, owner: Messageable, c: Cutoff): (r: seq<Message>)
    ensures SortedDesc(r)
    ensures forall m :: m in r <==> m in ms && m.owner == owner && !m.deleted && Admits(c, m)
  {
    FilterSortedDesc(History(ms, owner), m => Admits(c, m));
    Filter(History(ms, owner), m => Admits(c, m))
  }

  /** The validated request: both fields are optional. */
  datatype HistoryQuery = HistoryQuery(before: Option<Id>, limit: Option<int>)

  /** Validation: `before` must name an existing row (soft-deleted rows count),
      `limit` must lie in 1..100. */
  predicate ValidQuery(ms: seq<Message>, q: HistoryQuery) {
    (q.before.None? || RowOf(ms, q.before.value).Some?) &&
    (q.limit.None? || MinLimit <= q.limit.value <= MaxLimit)
  }

  /** `$validated['limit'] ?? 50`. */
  function LimitOf(q: HistoryQuery): (n: nat)
    requires q.limit.None? || MinLimit <= q.limit.value <= MaxLimit
    ensures MinLimit <= n <= MaxLimit
    ensures q.limit.Some? ==> n == q.limit.value
    ensures q.limit.None? ==> n == DefaultLimit
  {
    match q.limit
    case Some(n) => n
    case None => DefaultLimit
  }

  /** A page of history as the endpoints answer it. */
  datatype Page = Page(messages: seq<Message>, hasMore: bool)

  /** Fetch `limit + 1` rows, report whether the extra row came back, keep
      `limit` rows and reverse them. */
  function Paginate(rows: seq<Message>, limit: nat): (p: Page)
    ensures |p.messages| <= limit && |p.messages| <= |rows|
    ensures p.hasMore <==> |rows| > limit
    ensures |p.messages| == if |rows| > limit then limit else |rows|
    ensures forall i :: 0 <= i < |p.messages| ==> p.messages[i] == rows[|p.messages| - 1 - i]
  {
    var fetched := if |rows| > limit + 1 then rows[..limit + 1] else rows;
    var hasMore := |fetched| > limit;
    var kept := if hasMore then fetched[..limit] else fetched;
    Page(Reverse(kept), hasMore)
  }

  /** The page: newest `limit` candidates, handed out oldest first, and
      `has_more` exactly when older candidates remain. */
  function HistoryPage(ms: seq<Message>, owner: Messageable, q: HistoryQuery, now: int): (p: Page)
    requires ValidQuery(ms, q)
  {
    Paginate(Candidates(ms, owner, CutoffOf(ms, q.before, now)), LimitOf(q))
  }

  /** `page` is the first `|page|` of `rows`, reversed. */
  predicate ReversedPrefix(page: seq<Message>, rows: seq<Message>) {
    |page| <= |rows| && forall i :: 0 <= i < |page| ==> page[i] == rows[|page| - 1 - i]
  }

  lemma ReversedPrefixInRows(page: seq<Message>, rows: seq<Message>)
    requires ReversedPrefix(page, rows)
    ensures forall m :: m in page ==> m in rows
    ensures forall i :: 0 <= i < |page| ==> rows[i] in page
  {
    var k := |page|;
    forall i | 0 <= i < k
      ensures rows[i] in page
    {
      assert page[k - 1 - i] == rows[i];
    }
  }

  lemma ReversedPrefixLeavesOlder(page: seq<Message>, rows: seq<Message>)
    requires SortedDesc(rows) && ReversedPrefix(page, rows)
    ensures forall m, n :: m in rows && m !in page && n in page ==> m.createdAt <= n.createdAt
  {
    ReversedPrefixInRows(page, rows);
    var k := |page|;
    forall m, n | m in rows && m !in page && n in page
      ensures m.createdAt <= n.createdAt
    {
      var a :| 0 <= a < |rows| && rows[a] == m;
      var b :| 0 <= b < k && page[b] == n;
      assert k <= a;
      OlderOutsidePage(page, rows, a, b);
    }
  }

  /** A row past the reversed prefix is no newer than any row of the page. */
  lemma OlderOutsidePage(page: seq<Message>, rows: seq<Message>, a: nat, b: nat)
    requires SortedDesc(rows) && ReversedPrefix(page, rows)
    requires |page| <= a < |rows| && b < |page|
    ensures rows[a].createdAt <= page[b].createdAt
  {
    assert page[b] == rows[|page| - 1 - b];
  }

  /** A page of newest-first rows is their newest end, oldest first: every row
      it leaves out is at least as old as every row it keeps. */
  lemma PageIsNewestEnd(rows: seq<Message>, limit: nat)
    requires SortedDesc(rows)
    ensures var p := Paginate(rows, limit);
            SortedAsc(p.messages) &&
            (forall m :: m in p.messages ==> m in rows) &&
            (forall m, n :: m in rows && m !in p.messages && n in p.messages ==> m.createdAt <= n.createdAt)
  {
    var p := Paginate(rows, limit);
    assert ReversedPrefix(p.messages, rows);
    ReversedPrefixInRows(p.messages, rows);
    ReversedPrefixLeavesOlder(p.messages, rows);
  }

  /** What a page holds: at most `limit` messages of this owner, none deleted,
      all admitted by the cutoff, oldest first; it is the newest end of the
      candidates; `has_more` is true iff candidates were left out. */
  lemma HistoryPageContents(ms: seq<Message>, owner: Messageable, q: HistoryQuery, now: int)
    requires ValidQuery(ms, q)
    ensures var p := HistoryPage(ms, owner, q, now);
            var cs := Candidates(ms, owner, CutoffOf(ms, q.before, now));
            |p.messages| <= LimitOf(q) &&
            (p.hasMore <==> |cs| > LimitOf(q)) &&
            SortedAsc(p.messages) &&
            (forall m :: m in p.messages ==> m in ms && m.owner == owner && !m.deleted &&
                                             Admits(CutoffOf(ms, q.before, now), m)) &&
            (forall m, n :: m in cs && m !in p.messages && n in p.messages ==> m.createdAt <= n.createdAt)
  {
    PageIsNewestEnd(Candidates(ms, owner, CutoffOf(ms, q.before, now)), LimitOf(q));
  }

  /** With a live cursor every message on the page is strictly older than it:
      rows sharing the cursor's timestamp are left out. */
  lemma CursorIsStrict(ms: seq<Message>, owner: Messageable, q: HistoryQuery, now: int)
    requires ValidQuery(ms, q)
    requires q.before.Some? && Find(ms, q.before.value).Some?
    ensures forall m :: m in HistoryPage(ms, owner, q, now).messages ==>
              m.createdAt < Find(ms, q.before.value).value.createdAt
  {
    HistoryPageContents(ms, owner, q, now);
  }

  // ---------------------------------------------------------------------------
  // Paging through the history
  // ---------------------------------------------------------------------------

  /** With unique ids, `find` of a visible row is that row. */
  lemma {:induction false} FindVisible(ms: seq<Message>, m: Message)
    requires UniqueIds(ms)
    requires m in ms && !m.deleted
    ensures Find(ms, m.id) == Some(m)
    decreases |ms|
  {
    if ms[0] != m {
      assert UniqueIds(ms[1..]) by {
        forall i, j | 0 <= i < |ms[1..]| && 0 <= j < |ms[1..]| && ms[1..][i].id == ms[1..][j].id
          ensures i == j
        {
          assert ms[i + 1].id == ms[j + 1].id;
        }
      }
      var k :| 0 <= k < |ms| && ms[k] == m;
      assert k != 0;
      assert ms[0].id != m.id;
      FindVisible(ms[1..], m);
    }
  }

  /** On a strictly newest-first list, the rows older than the row at `k` are
      exactly the rows after it. */
  lemma {:induction false} OlderThanIsSuffix(xs: seq<Message>, k: nat)
    requires StrictlyDesc(xs) && k < |xs|
    ensures Filter(xs, m => Admits(OlderThan(xs[k].createdAt), m)) == xs[k + 1..]
    decreases |xs|
  {
    var f := (m: Message) => Admits(OlderThan(xs[k].createdAt), m);
    if k == 0 {
      AllAdmitted(xs[1..], f);
    } else {
      OlderThanIsSuffix(xs[1..], k - 1);
      assert xs[1..][k - 1] == xs[k];
      assert xs[1..][k..] == xs[k + 1..];
    }
  }

  lemma {:induction false} AllAdmitted(xs: seq<Message>, f: Message -> bool)
    requires forall i :: 0 <= i < |xs| ==> f(xs[i])
    ensures Filter(xs, f) == xs
    decreases |xs|
  {
    if |xs| > 0 {
      AllAdmitted(xs[1..], f);
    }
  }

  /** Paging back never skips or repeats a message when timestamps are distinct:
      if a page was cut from the history starting at position `j`, the next
      request, with the page's oldest message as cursor, is cut from the history
      starting right after that page. */
  lemma NextPageFollows(ms: seq<Message>, owner: Messageable, j: nat, limit: nat, now: int)
    requires UniqueIds(ms)
    requires StrictlyDesc(History(ms, owner))
    requires j < |History(ms, owner)| && limit >= 1
    ensures var h := History(ms, owner);
            var p := Paginate(h[j..], limit);
            |p.messages| > 0 &&
            Candidates(ms, owner, CutoffOf(ms, Some(p.messages[0].id), now)) == h[j + |p.messages|..]
  {
    var h := History(ms, owner);
    var p := Paginate(h[j..], limit);
    OldestOfPage(h, j, limit);
    CursorCandidates(ms, owner, j + |p.messages| - 1, now);
  }

  /** The first entry of a page cut at position `j` is the row at `j + k - 1`,
      `k` being the page's size. */
  lemma OldestOfPage(h: seq<Message>, j: nat, limit: nat)
    requires j < |h| && limit >= 1
    ensures var p := Paginate(h[j..], limit);
            0 < |p.messages| && j + |p.messages| <= |h| &&
            p.messages[0] == h[j + |p.messages| - 1]
  {
    var p := Paginate(h[j..], limit);
    assert p.messages[0] == h[j..][|p.messages| - 1];
  }

  /** With the history row at `n` as cursor, the candidates are the history
      after `n`. */
  lemma CursorCandidates(ms: seq<Message>, owner: Messageable, n: nat, now: int)
    requires UniqueIds(ms)
    requires StrictlyDesc(History(ms, owner)) && n < |History(ms, owner)|
    ensures Candidates(ms, owner, CutoffOf(ms, Some(History(ms, owner)[n].id), now)) == History(ms, owner)[n + 1..]
  {
    var h := History(ms, owner);
    assert h[n] in h;
    FindVisible(ms, h[n]);
    CandidatesAfter(ms, owner, n);
  }

  /** The rows older than the history row at `k` are the history after `k`. */
  lemma CandidatesAfter(ms: seq<Message>, owner: Messageable, k: nat)
    requires StrictlyDesc(History(ms, owner)) && k < |History(ms, owner)|
    ensures Candidates(ms, owner, OlderThan(History(ms, owner)[k].createdAt)) == History(ms, owner)[k + 1..]
  {
    OlderThanIsSuffix(History(ms, owner), k);
  }

  /** The first page, without a cursor, is the newest end of the history: the
      last three days form a prefix of the newest-first history. */
  lemma {:induction false} SinceIsPrefix(xs: seq<Message>, t: int)
    requires SortedDesc(xs)
    ensures exists n :: 0 <= n <= |xs| && Filter(xs, m => Admits(Since(t), m)) == xs[..n]
    decreases |xs|
  {
    var f := (m: Message) => Admits(Since(t), m);
    if |xs| == 0 {
      assert Filter(xs, f) == xs[..0];
    } else if xs[0].createdAt < t {
      NoneAdmitted(xs, f, t);
      assert Filter(xs, f) == xs[..0];
    } else {
      SinceIsPrefix(xs[1..], t);
      var n :| 0 <= n <= |xs[1..]| && Filter(xs[1..], f) == xs[1..][..n];
      AdmittedHeadExtendsPrefix(xs, f, n);
    }
  }

  /** An admitted first row lengthens the admitted prefix of the rest by one. */
  lemma AdmittedHeadExtendsPrefix(xs: seq<Message>, f: Message -> bool, n: nat)
    requires 0 < |xs| && n < |xs| && f(xs[0])
    requires Filter(xs[1..], f) == xs[1..][..n]
    ensures Filter(xs, f) == xs[..n + 1]
  {
    assert [xs[0]] + xs[1..][..n] == xs[..n + 1];
  }

  lemma {:induction false} NoneAdmitted(xs: seq<Message>, f: Message -> bool, t: int)
    requires SortedDesc(xs) && |xs| > 0 && xs[0].createdAt < t
    requires forall m :: f(m) == Admits(Since(t), m)
    ensures Filter(xs, f) == []
    decreases |xs|
  {
    if |xs| > 1 {
      NoneAdmitted(xs[1..], f, t);
    }
  }
}
