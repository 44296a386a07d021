/**
 * The read queries of the book service as filters, sorts and pages over the
 * tables: the short list and the homepage list of a user's books, the book
 * response, a book's picks in order, the page-size rounding of
 * `GetPicksByBook`, and the two searches.
 */
module Queries {
  import opened Wrappers
  import opened Uuids
  import opened Domain
  import opened Text
  import opened Rows
  import opened PickOrder
  import opened Tagging

  // ---------------------------------------------------------------- orders

  /** `ORDER BY updated_at DESC`. */
  function NewestFirst(x: Book, y: Book): bool
  {
    x.updatedAt >= y.updatedAt
  }

  /** `ORDER BY index DESC`. */
  function IndexDesc(x: Pick, y: Pick): bool
  {
    x.index >= y.index
  }

  /** `ORDER BY index ASC`. */
  function IndexAsc(x: Pick, y: Pick): bool
  {
    x.index <= y.index
  }

  lemma OrdersAreTotalPreorders()
    ensures IsTotalPreorder(NewestFirst) && IsTotalPreorder(IndexDesc) && IsTotalPreorder(IndexAsc)
  {
  }

  // ---------------------------------------------------------------- the short list

  /** The books the short list may show: the user's, with the search text in the title when one is given. */
  predicate ShortListed(b: Book, u: Id, search: string)
  {
    b.userId == Some(u) && (search != "" ==> ContainsFold(b.title, search))
  }

  /**
   * `GetShortBooksList`'s query: `WHERE user_id = u [AND title ILIKE
   * '%search%'] ORDER BY updated_at DESC`, then `Offset(offset).Limit(limit)`.
   */
  function ShortListBooks(books: seq<Book>, u: Id, params: BookListParams): seq<Book>
  {
    Page(SortBy(Filter(books, (b: Book) => ShortListed(b, u, params.search)), NewestFirst), params.offset, params.limit)
  }

  /**
   * The short list holds only the user's books whose title contains the
   * search text (ignoring case), newest first; without offset and limit it
   * holds all of them.
   */
  lemma ShortListMeans(books: seq<Book>, u: Id, params: BookListParams)
    ensures var r := ShortListBooks(books, u, params);
            && (forall b :: b in r ==> b in books && ShortListed(b, u, params.search))
            && (forall i, j :: 0 <= i < j < |r| ==> r[i].updatedAt >= r[j].updatedAt)
            && (params.offset <= 0 && (params.limit < 0 || params.limit >= |books|) ==>
                  forall b :: b in books && ShortListed(b, u, params.search) ==> b in r)
  {
    var mine := Filter(books, (b: Book) => ShortListed(b, u, params.search));
    var sorted := SortBy(mine, NewestFirst);
    OrdersAreTotalPreorders();
    SortBySorted(mine, NewestFirst);
    PageOfSorted(sorted, NewestFirst, params.offset, params.limit);
    forall b | b in Page(sorted, params.offset, params.limit)
      ensures b in mine
    {
      PageMembers(sorted, params.offset, params.limit, b);
      SortByMembers(mine, NewestFirst, b);
    }
    if params.offset <= 0 && (params.limit < 0 || params.limit >= |books|) {
      PageOfAll(sorted, params.offset, params.limit);
      forall b | b in books && ShortListed(b, u, params.search)
        ensures b in sorted
      {
        SortByMembers(mine, NewestFirst, b);
      }
    }
  }

  // ---------------------------------------------------------------- the homepage list

  /**
   * The topic names `GetBooks` filters by: the comma-separated parameter,
   * unless it is empty or contains `all` anywhere in it (None: no filter).
   */
  function TopicFilter(topics: string): (r: Option<seq<string>>)
    ensures r.Some? <==> topics != "" && !Contains(topics, "all")
  {
    if topics != "" && !Contains(topics, "all") then Some(Split(topics, ',')) else None
  }

  /** The parameter is searched for `all` as a substring, so a topic such as "football" turns the filter off. */
  lemma AllInsideATopicNameDisablesTheFilter()
    ensures TopicFilter("football") == None
  {
    var h := "football";
    assert h[5..][..3] == "all";
    assert Contains(h[5..], "all");
    assert h[4..][1..] == h[5..];
    assert Contains(h[4..], "all");
    assert h[3..][1..] == h[4..];
    assert Contains(h[3..], "all");
    assert h[2..][1..] == h[3..];
    assert Contains(h[2..], "all");
    assert h[1..][1..] == h[2..];
    assert Contains(h[1..], "all");
  }

  /** The book has a link to a topic, named in `names` when a filter is given. */
  predicate LinkedTo(b: Book, ls: seq<BookTopic>, ts: seq<Topic>, names: Option<seq<string>>)
  {
    exists l, t :: l in ls && l.bookId == b.id && t in ts && t.id == l.topicId && (names.Some? ==> t.topic in names.value)
  }

  predicate HomeListed(b: Book, u: Id, ls: seq<BookTopic>, ts: seq<Topic>, topics: string)
  {
    b.userId == Some(u) && LinkedTo(b, ls, ts, TopicFilter(topics))
  }

  /**
   * `GetBooks`'s query: `SELECT DISTINCT books.* FROM books JOIN book_topics
   * JOIN topics WHERE books.user_id = u [AND topics.topic IN (...)] ORDER BY
   * books.updated_at DESC`, then `Offset(offset).Limit(limit)`. A book with
   * no topic is never listed.
   */
  function HomeBooks(books: seq<Book>, ls: seq<BookTopic>, ts: seq<Topic>, u: Id, params: BookListParams): seq<Book>
  {
    Page(SortBy(Filter(books, (b: Book) => HomeListed(b, u, ls, ts, params.topics)), NewestFirst),
         params.offset, params.limit)
  }

  /**
   * The homepage list holds only the user's books that carry a topic (one of
   * the named ones, when the filter applies), newest first; without offset
   * and limit it holds all of them.
   */
  lemma HomeBooksMeans(books: seq<Book>, ls: seq<BookTopic>, ts: seq<Topic>, u: Id, params: BookListParams)
    ensures var r := HomeBooks(books, ls, ts, u, params);
            && (forall b :: b in r ==> b in books && HomeListed(b, u, ls, ts, params.topics))
            && (forall i, j :: 0 <= i < j < |r| ==> r[i].updatedAt >= r[j].updatedAt)
            && (params.offset <= 0 && (params.limit < 0 || params.limit >= |books|) ==>
                  forall b :: b in books && HomeListed(b, u, ls, ts, params.topics) ==> b in r)
  {
    var mine := Filter(books, (b: Book) => HomeListed(b, u, ls, ts, params.topics));
    var sorted := SortBy(mine, NewestFirst);
    OrdersAreTotalPreorders();
    SortBySorted(mine, NewestFirst);
    PageOfSorted(sorted, NewestFirst, params.offset, params.limit);
    forall b | b in Page(sorted, params.offset, params.limit)
      ensures b in mine
    {
      PageMembers(sorted, params.offset, params.limit, b);
      SortByMembers(mine, NewestFirst, b);
    }
    if params.offset <= 0 && (params.limit < 0 || params.limit >= |books|) {
      PageOfAll(sorted, params.offset, params.limit);
      forall b | b in books && HomeListed(b, u, ls, ts, params.topics)
        ensures b in sorted
      {
        SortByMembers(mine, NewestFirst, b);
      }
    }
  }

  // ---------------------------------------------------------------- the book response

  function PickResponse(p: Pick): BookPickResponse
  {
    BookPickResponse(p.guid, p.content, p.index, p.title)
  }

  /**
   * `ORDER BY RANDOM() LIMIT 1` over the book's picks: the draw `draw`
   * chooses one; with no pick the preview keeps its zero value.
   */
  function Preview(picks: seq<Pick>, draw: nat): (r: BookPickPreviewResponse)
    ensures |picks| == 0 ==> r == ZeroPreview
    ensures |picks| > 0 ==> exists p :: p in picks && r == BookPickPreviewResponse(p.guid, p.contentText)
  {
    if |picks| == 0 then ZeroPreview
    else
      var p := picks[draw % |picks|];
      BookPickPreviewResponse(p.guid, p.contentText)
  }

  /** The book's picks, greatest index first. */
  function LatestPicks(ps: seq<Pick>, b: Id, n: nat): seq<Pick>
  {
    Take(SortBy(PicksOf(ps, b), IndexDesc), n)
  }

  /** The three picks of greatest index are the book's own, in decreasing index order. */
  lemma LatestPicksMeans(ps: seq<Pick>, b: Id, n: nat)
    ensures var r := LatestPicks(ps, b, n);
            && |r| == Rows.Min(n, CountIn(ps, b))
            && (forall p :: p in r ==> p in ps && p.bookId == b)
            && (forall i, j :: 0 <= i < j < |r| ==> r[i].index >= r[j].index)
  {
    var sorted := SortBy(PicksOf(ps, b), IndexDesc);
    var r := LatestPicks(ps, b, n);
    OrdersAreTotalPreorders();
    SortBySorted(PicksOf(ps, b), IndexDesc);
    forall p | p in r
      ensures p in ps && p.bookId == b
    {
      var i :| 0 <= i < |r| && r[i] == p;
      assert sorted[i] == p;
      SortByMembers(PicksOf(ps, b), IndexDesc, p);
    }
    assert forall i, j :: 0 <= i < j < |r| ==> r[i] == sorted[i] && r[j] == sorted[j];
  }

  /**
   * The `BookResponse` of `GetCompleteBookByGuid` and `GetBooks`: the book's
   * fields, its pick count, a random preview, its topics and its three picks
   * of greatest index.
   */
  function BookResponseOf(b: Book, ps: seq<Pick>, ts: seq<Topic>, ls: seq<BookTopic>, draw: nat): (r: BookResponse)
    ensures r.guid == b.guid && r.title == b.title && r.author == b.author
    ensures r.updatedAt == b.updatedAt && r.createdAt == b.createdAt
    ensures r.picksCount == CountIn(ps, b.id) && |r.picks| == Rows.Min(3, CountIn(ps, b.id))
    ensures r.topics == TopicsOfBook(ts, ls, b.id)
    ensures r.preview == Preview(PicksOf(ps, b.id), draw)
  {
    BookResponse(b.guid, b.title, b.author, b.updatedAt, b.createdAt, CountIn(ps, b.id),
                 Preview(PicksOf(ps, b.id), draw), TopicsOfBook(ts, ls, b.id),
                 Map(LatestPicks(ps, b.id, 3), PickResponse))
  }

  // ---------------------------------------------------------------- a book's picks

  /** `GetPicksByBook`'s order: `index ASC` when asked for "asc", `index DESC` otherwise. */
  function OrderedPicks(ps: seq<Pick>, b: Id, orderBy: string): seq<Pick>
  {
    SortBy(PicksOf(ps, b), if orderBy == "asc" then IndexAsc else IndexDesc)
  }

  lemma OrderedPicksMeans(ps: seq<Pick>, b: Id, orderBy: string)
    ensures var r := OrderedPicks(ps, b, orderBy);
            && multiset(r) == multiset(PicksOf(ps, b))
            && (forall i, j :: 0 <= i < j < |r| ==>
                  if orderBy == "asc" then r[i].index <= r[j].index else r[i].index >= r[j].index)
  {
    OrdersAreTotalPreorders();
    if orderBy == "asc" {
      SortBySorted(PicksOf(ps, b), IndexAsc);
    } else {
      SortBySorted(PicksOf(ps, b), IndexDesc);
    }
  }

  /** Go's `a % b` on `int`: the remainder truncated toward zero, with the sign of `a`. */
  function GoRem(a: int, b: int): (r: int)
    requires b != 0
    ensures a >= 0 ==> 0 <= r < (if b > 0 then b else -b)
    ensures a == (if b > 0 then b else -b) * GoQuot(a, b) + r
  {
    var m := if b > 0 then b else -b;
    if a >= 0 then a % m else -((-a) % m)
  }

  /** The magnitude of Go's truncated quotient, signed like `a`. */
  function GoQuot(a: int, b: int): int
    requires b != 0
  {
    var m := if b > 0 then b else -b;
    if a >= 0 then a / m else -((-a) / m)
  }

  /**
   * `upperLimit := c + (limit - c % limit) % limit` (service.go computes it
   * in Go's `int`); a zero limit divides by zero and panics (None).
   */
  function UpperLimit(c: int, limit: int): (r: Option<int>)
    ensures r.None? <==> limit == 0
  {
    if limit == 0 then None else Some(c + GoRem(limit - GoRem(c, limit), limit))
  }

  /** For a positive limit, the page size is the least multiple of the limit that is at least `c`. */
  lemma UpperLimitRoundsUp(c: nat, limit: int)
    requires limit > 0
    ensures UpperLimit(c, limit).Some?
    ensures var v := UpperLimit(c, limit).value;
            v % limit == 0 && c <= v < c + limit
  {
    var rc := c % limit;
    assert GoRem(c, limit) == rc;
    assert GoRem(limit - rc, limit) == (limit - rc) % limit;
    RoundUp(c, limit);
  }

  /** `c + (m - c % m) % m` is the least multiple of `m` that is at least `c`. */
  lemma RoundUp(c: nat, m: int)
    requires m > 0
    ensures var v := c + (m - c % m) % m;
            v % m == 0 && c <= v < c + m
  {
    var rc := c % m;
    var q := c / m;
    var v := c + (m - rc) % m;
    assert c == m * q + rc;
    if rc == 0 {
      MultipleMod(m, 1);
      assert m * 1 == m;
      assert v == c;
      MultipleMod(m, q);
    } else {
      assert (m - rc) % m == m - rc;
      assert m * (q + 1) == m * q + m;
      assert v == m * (q + 1);
      MultipleMod(m, q + 1);
    }
  }

  lemma MultipleMod(m: int, k: int)
    requires m > 0
    ensures (m * k) % m == 0
  {
    var a := m * k;
    var q := a / m;
    var r := a % m;
    assert a == m * q + r;
    assert m * (k - q) == r;
    if k - q >= 1 {
      assert false;
    } else if k - q <= -1 {
      assert false;
    }
  }

  /** A page of the book's picks in the requested order holds only the book's picks, in that order. */
  lemma OrderedPageMeans(ps: seq<Pick>, b: Id, orderBy: string, offset: int, limit: int)
    ensures var r := Page(OrderedPicks(ps, b, orderBy), offset, limit);
            && (forall p :: p in r ==> p in ps && p.bookId == b)
            && (forall i, j :: 0 <= i < j < |r| ==>
                  if orderBy == "asc" then r[i].index <= r[j].index else r[i].index >= r[j].index)
  {
    var le := if orderBy == "asc" then IndexAsc else IndexDesc;
    var s := OrderedPicks(ps, b, orderBy);
    assert s == SortBy(PicksOf(ps, b), le);
    var r := Page(s, offset, limit);
    OrdersAreTotalPreorders();
    SortBySorted(PicksOf(ps, b), le);
    PageOfSorted(s, le, offset, limit);
    forall p | p in r
      ensures p in ps && p.bookId == b
    {
      PageMembers(s, offset, limit, p);
      SortByMembers(PicksOf(ps, b), le, p);
    }
  }

  /** The number of picks in `s` whose index is greater than `k`. */
  function NewerThan(s: seq<Pick>, k: nat): (n: nat)
    ensures n <= |s|
  {
    if |s| == 0 then 0 else (if s[0].index > k then 1 else 0) + NewerThan(s[1..], k)
  }

  /**
   * `GetPicksByBook` with an until-pick of index `k`: the page size becomes
   * the number of the book's picks after it rounded up to a multiple of the
   * limit; None when the limit is zero (Go's division by zero).
   */
  function UntilPage(ps: seq<Pick>, b: Id, orderBy: string, offset: int, limit: int, k: nat): Option<seq<Pick>>
  {
    var upper := UpperLimit(NewerThan(PicksOf(ps, b), k), limit);
    if upper.Some? then Some(Page(OrderedPicks(ps, b, orderBy), offset, upper.value)) else None
  }

  lemma {:induction false} NewerThanInsert(x: Pick, s: seq<Pick>, le: (Pick, Pick) -> bool, k: nat)
    ensures NewerThan(InsertBy(x, s, le), k) == NewerThan(s, k) + (if x.index > k then 1 else 0)
    decreases |s|
  {
    if |s| > 0 && !le(x, s[0]) {
      NewerThanInsert(x, s[1..], le, k);
      assert InsertBy(x, s, le)[1..] == InsertBy(x, s[1..], le);
    } else if |s| > 0 {
      assert InsertBy(x, s, le)[1..] == s;
    }
  }

  /** Sorting does not change how many picks are newer than `k`. */
  lemma {:induction false} NewerThanSorted(s: seq<Pick>, le: (Pick, Pick) -> bool, k: nat)
    ensures NewerThan(SortBy(s, le), k) == NewerThan(s, k)
    decreases |s|
  {
    if |s| > 0 {
      NewerThanSorted(s[1..], le, k);
      NewerThanInsert(s[0], SortBy(s[1..], le), le, k);
    }
  }

  /** In a list sorted by decreasing index, a pick newer than `k` is among the first `NewerThan(s, k)`. */
  lemma {:induction false} NewerComeFirst(s: seq<Pick>, k: nat, j: nat)
    requires SortedBy(s, IndexDesc)
    requires j < |s| && s[j].index > k
    ensures j < NewerThan(s, k)
    decreases j
  {
    assert IndexDesc(s[0], s[j]) || j == 0;
    if j > 0 {
      assert SortedBy(s[1..], IndexDesc) by {
        forall a, c | 0 <= a < c < |s[1..]|
          ensures IndexDesc(s[1..][a], s[1..][c])
        {
          assert s[1..][a] == s[a + 1] && s[1..][c] == s[c + 1];
        }
      }
      assert s[1..][j - 1] == s[j];
      NewerComeFirst(s[1..], k, j - 1);
    }
  }

  /**
   * Newest first, from the start, with a positive limit: the page reaches at
   * least every pick of the book that is newer than the until-pick.
   */
  lemma UntilPageReachesNewer(ps: seq<Pick>, b: Id, orderBy: string, offset: int, limit: int, k: nat, p: Pick)
    requires orderBy != "asc" && offset <= 0 && limit > 0
    requires p in ps && p.bookId == b && p.index > k
    ensures UntilPage(ps, b, orderBy, offset, limit, k).Some?
    ensures p in UntilPage(ps, b, orderBy, offset, limit, k).value
  {
    var mine := PicksOf(ps, b);
    var s := OrderedPicks(ps, b, orderBy);
    OrdersAreTotalPreorders();
    SortBySorted(mine, IndexDesc);
    SortByMembers(mine, IndexDesc, p);
    var j :| 0 <= j < |s| && s[j] == p;
    NewerComeFirst(s, k, j);
    NewerThanSorted(mine, IndexDesc, k);
    var c := NewerThan(mine, k);
    UpperLimitRoundsUp(c, limit);
    var upper := UpperLimit(c, limit).value;
    PageWindow(s, offset, upper);
    assert Page(s, offset, upper)[j] == p;
  }

  /** When no pick of the book is newer than the until-pick and the limit is positive, the page is empty. */
  lemma UntilNewestPickGivesNothing(ps: seq<Pick>, b: Id, orderBy: string, offset: int, limit: int, k: nat)
    requires limit > 0
    requires forall p :: p in ps && p.bookId == b ==> p.index <= k
    ensures UntilPage(ps, b, orderBy, offset, limit, k) == Some([])
  {
    var mine := PicksOf(ps, b);
    assert forall p :: p in mine ==> p.index <= k;
    NoneNewer(mine, k);
    UpperLimitRoundsUp(0, limit);
    var upper := UpperLimit(0, limit).value;
    assert upper == 0;
    var page := Page(OrderedPicks(ps, b, orderBy), offset, upper);
    assert |page| == 0;
  }

  lemma {:induction false} NoneNewer(s: seq<Pick>, k: nat)
    requires forall p :: p in s ==> p.index <= k
    ensures NewerThan(s, k) == 0
    decreases |s|
  {
    if |s| > 0 {
      assert s[0] in s;
      assert forall p :: p in s[1..] ==> p in s;
      NoneNewer(s[1..], k);
    }
  }

  // ---------------------------------------------------------------- searches

  /** `content_text ILIKE '%q%' OR title ILIKE '%q%'`. */
  predicate PickMatches(p: Pick, q: string)
  {
    ContainsFold(p.contentText, q) || ContainsFold(p.title, q)
  }

  /** The first book row with id `id`. */
  function BookWithId(books: seq<Book>, id: Id): (r: Option<Book>)
    ensures r.Some? ==> r.value in books && r.value.id == id
    ensures r.None? ==> forall b :: b in books ==> b.id != id
  {
    if |books| == 0 then None
    else if books[0].id == id then Some(books[0])
    else BookWithId(books[1..], id)
  }

  /** The user has a keyword row for the pick containing `q`. */
  predicate KeywordMatches(keywords: seq<Keyword>, p: Pick, u: Id, q: string)
  {
    exists k :: k in keywords && k.pickId == p.id && k.userId == u && ContainsFold(k.keyword, q)
  }

  /**
   * The `WHERE` of `SemanticSearch`: the pick has a book and is the user's
   * with matching text or title, or has a matching keyword of the user, or
   * its book is the user's with a matching title.
   */
  predicate SemanticMatch(books: seq<Book>, keywords: seq<Keyword>, p: Pick, u: Id, q: string)
  {
    var b := BookWithId(books, p.bookId);
    && b.Some?
    && ((p.userId == u && PickMatches(p, q))
        || KeywordMatches(keywords, p, u, q)
        || (ContainsFold(b.value.title, q) && b.value.userId == Some(u)))
  }

  function SemanticRow(books: seq<Book>, p: Pick): SemanticSearchResponse
    requires BookWithId(books, p.bookId).Some?
  {
    var b := BookWithId(books, p.bookId).value;
    SemanticSearchResponse(b.guid, b.title, p.guid, p.contentText, p.index, p.title)
  }

  /** The matching picks joined with their books, in table order, before `LIMIT ? OFFSET ?`. */
  function SemanticRows(picks: seq<Pick>, books: seq<Book>, keywords: seq<Keyword>, u: Id, q: string): (r: seq<SemanticSearchResponse>)
    ensures forall x :: x in r <==> exists p :: p in picks && SemanticMatch(books, keywords, p, u, q) && x == SemanticRow(books, p)
  {
    if |picks| == 0 then []
    else
      var rest := SemanticRows(picks[..|picks| - 1], books, keywords, u, q);
      var p := picks[|picks| - 1];
      assert forall x :: x in picks <==> x in picks[..|picks| - 1] || x == p;
      if SemanticMatch(books, keywords, p, u, q) then rest + [SemanticRow(books, p)] else rest
  }

  /** `SemanticSearch`'s query; a negative limit or offset is refused by Postgres (None). */
  function SemanticSearch(picks: seq<Pick>, books: seq<Book>, keywords: seq<Keyword>, u: Id, params: SearchGetParams): Option<seq<SemanticSearchResponse>>
  {
    RawPage(SemanticRows(picks, books, keywords, u, params.query), params.limit, params.offset)
  }

  /**
   * A pick reaches the search only through the user: its own text, the
   * user's keywords for it, or the user's book; another user's pick in
   * another user's book with no keyword of this user is never found.
   */
  lemma SemanticSearchIsScoped(picks: seq<Pick>, books: seq<Book>, keywords: seq<Keyword>, u: Id, params: SearchGetParams, x: SemanticSearchResponse)
    requires SemanticSearch(picks, books, keywords, u, params).Some?
    requires x in SemanticSearch(picks, books, keywords, u, params).value
    ensures exists p :: p in picks && SemanticMatch(books, keywords, p, u, params.query) && x == SemanticRow(books, p)
  {
    var rows := SemanticRows(picks, books, keywords, u, params.query);
    var r := SemanticSearch(picks, books, keywords, u, params).value;
    var i :| 0 <= i < |r| && r[i] == x;
    assert x == rows[params.offset + i];
    assert x in rows;
  }

  /** With offset 0 and a limit covering every pick, each matching pick is found. */
  lemma SemanticSearchIsComplete(picks: seq<Pick>, books: seq<Book>, keywords: seq<Keyword>, u: Id, params: SearchGetParams, p: Pick)
    requires params.offset == 0 && params.limit >= |picks|
    requires p in picks && SemanticMatch(books, keywords, p, u, params.query)
    ensures SemanticSearch(picks, books, keywords, u, params).Some?
    ensures SemanticRow(books, p) in SemanticSearch(picks, books, keywords, u, params).value
  {
    var rows := SemanticRows(picks, books, keywords, u, params.query);
    SemanticRowsBound(picks, books, keywords, u, params.query);
    assert SemanticSearch(picks, books, keywords, u, params).value == rows;
  }

  lemma {:induction false} SemanticRowsBound(picks: seq<Pick>, books: seq<Book>, keywords: seq<Keyword>, u: Id, q: string)
    ensures |SemanticRows(picks, books, keywords, u, q)| <= |picks|
    decreases |picks|
  {
    if |picks| > 0 {
      SemanticRowsBound(picks[..|picks| - 1], books, keywords, u, q);
    }
  }

  function InBookRow(p: Pick): SearchPickInBookResponse
  {
    SearchPickInBookResponse(p.guid, p.title, p.contentText, p.index)
  }

  /**
   * `SearchPickInBook`'s query: the book's picks whose text or title
   * contains `q`, ignoring case, in table order, then `LIMIT ? OFFSET ?`
   * (None for a negative value).
   */
  function SearchInBook(picks: seq<Pick>, b: Id, params: SearchGetParams): Option<seq<SearchPickInBookResponse>>
  {
    RawPage(Map(InBookHits(picks, b, params.query), InBookRow), params.limit, params.offset)
  }

  /** The rows `SearchPickInBook`'s `WHERE` keeps, in table order. */
  function InBookHits(picks: seq<Pick>, b: Id, q: string): seq<Pick>
  {
    Filter(picks, (p: Pick) => p.bookId == b && PickMatches(p, q))
  }

  /** Every result is a pick of the book whose text or title contains the query. */
  lemma SearchInBookMeans(picks: seq<Pick>, b: Id, params: SearchGetParams, x: SearchPickInBookResponse)
    requires SearchInBook(picks, b, params).Some? && x in SearchInBook(picks, b, params).value
    ensures exists p :: p in picks && p.bookId == b && PickMatches(p, params.query) && x == InBookRow(p)
  {
    var hits := InBookHits(picks, b, params.query);
    var rows := Map(hits, InBookRow);
    var r := SearchInBook(picks, b, params).value;
    var i :| 0 <= i < |r| && r[i] == x;
    assert x == rows[params.offset + i] == InBookRow(hits[params.offset + i]);
    assert hits[params.offset + i] in hits;
  }

  /** With offset 0 and a limit covering every match, each pick of the book whose text or title contains the query is found. */
  lemma SearchInBookIsComplete(picks: seq<Pick>, b: Id, params: SearchGetParams, p: Pick)
    requires params.offset == 0 && params.limit >= |InBookHits(picks, b, params.query)|
    requires p in picks && p.bookId == b && PickMatches(p, params.query)
    ensures SearchInBook(picks, b, params).Some?
    ensures InBookRow(p) in SearchInBook(picks, b, params).value
  {
    var hits := InBookHits(picks, b, params.query);
    var rows := Map(hits, InBookRow);
    var r := SearchInBook(picks, b, params).value;
    assert p in hits;
    var i :| 0 <= i < |hits| && hits[i] == p;
    assert |r| == |rows|;
    assert r[i] == rows[i] == InBookRow(p);
  }
}
