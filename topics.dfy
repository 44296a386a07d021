/**
 * Topic tagging over the `topics` and `book_topics` tables: the two insert
 * policies (`ON CONFLICT (user_id, topic) DO NOTHING` when a book is created,
 * saved or copied from a sample; `DO UPDATE SET color` when a book is
 * edited), linking a book to topics, garbage-collecting a user's topics that
 * no link references, and the topic join the book responses carry.
 *
 * Postgres draws a topic id from its sequence for every insert attempt,
 * conflicting or not; the loops below draw one id per item for that reason.
 */
module Tagging {
  import opened Wrappers
  import opened Domain
  import opened Text
  import opened Rows

  // ---------------------------------------------------------------- lookup

  /** The position of the first row of user `u` named `name`. */
  function TopicPos(ts: seq<Topic>, u: Id, name: string): (r: Option<nat>)
    ensures r.Some? ==> r.value < |ts| && ts[r.value].userId == u && ts[r.value].topic == name
    ensures r.Some? ==> forall j :: 0 <= j < r.value ==> !(ts[j].userId == u && ts[j].topic == name)
    ensures r.None? ==> forall j :: 0 <= j < |ts| ==> !(ts[j].userId == u && ts[j].topic == name)
  {
    if |ts| == 0 then None
    else if ts[0].userId == u && ts[0].topic == name then Some(0)
    else
      var rest := TopicPos(ts[1..], u, name);
      if rest.Some? then Some(rest.value + 1) else None
  }

  /** `SELECT * FROM topics WHERE user_id = u AND topic = name`, the first row. */
  function FindTopic(ts: seq<Topic>, u: Id, name: string): Option<Topic>
  {
    var pos := TopicPos(ts, u, name);
    if pos.Some? then Some(ts[pos.value]) else None
  }

  /** Looking up in a table with rows appended finds the old row if there was one, else looks in the new rows. */
  lemma FindTopicAppend(ts: seq<Topic>, more: seq<Topic>, u: Id, name: string)
    ensures FindTopic(ts + more, u, name)
         == if FindTopic(ts, u, name).Some? then FindTopic(ts, u, name) else FindTopic(more, u, name)
  {
    var all := ts + more;
    var p := TopicPos(ts, u, name);
    var q := TopicPos(more, u, name);
    var r := TopicPos(all, u, name);
    if p.Some? {
      assert all[p.value] == ts[p.value];
      assert forall j :: 0 <= j < |ts| ==> all[j] == ts[j];
    } else if q.Some? {
      assert all[|ts| + q.value] == more[q.value];
      assert forall j :: 0 <= j < |ts| ==> all[j] == ts[j];
      assert forall j :: |ts| <= j < |ts| + q.value ==> all[j] == more[j - |ts|];
    } else {
      assert forall j :: 0 <= j < |all| ==> all[j] == if j < |ts| then ts[j] else more[j - |ts|];
    }
  }

  // ---------------------------------------------------------------- one insert

  /**
   * `INSERT INTO topics (user_id, topic, color) VALUES (u, item.topic, item.color)
   * ON CONFLICT (user_id, topic) DO NOTHING`, a new row taking id `id`.
   */
  function InsertTopicOrNothing(ts: seq<Topic>, id: Id, u: Id, item: TopicResponse): seq<Topic>
  {
    if FindTopic(ts, u, item.topic).Some? then ts else ts + [Topic(id, u, item.topic, item.color)]
  }

  /** The same insert with `ON CONFLICT (user_id, topic) DO UPDATE SET color = item.color`. */
  function UpsertTopic(ts: seq<Topic>, id: Id, u: Id, item: TopicResponse): (r: seq<Topic>)
    ensures |r| >= |ts|
  {
    var pos := TopicPos(ts, u, item.topic);
    if pos.Some? then ts[pos.value := ts[pos.value].(color := item.color)]
    else ts + [Topic(id, u, item.topic, item.color)]
  }

  /** Changing a row's colour moves no row: every lookup finds the same position. */
  lemma RecolourKeepsPositions(ts: seq<Topic>, i: nat, c: string, u: Id, name: string)
    requires i < |ts|
    ensures TopicPos(ts[i := ts[i].(color := c)], u, name) == TopicPos(ts, u, name)
  {
    var ts' := ts[i := ts[i].(color := c)];
    assert forall j :: 0 <= j < |ts| ==> ts'[j].userId == ts[j].userId && ts'[j].topic == ts[j].topic;
    var p, p' := TopicPos(ts, u, name), TopicPos(ts', u, name);
    if p.Some? && p'.Some? {
      assert !(p.value < p'.value) && !(p'.value < p.value);
    }
  }

  /** After an upsert the row is there with the item's colour; other names and users are untouched. */
  lemma UpsertTopicFinds(ts: seq<Topic>, id: Id, u: Id, item: TopicResponse, u': Id, name: string)
    ensures var r := UpsertTopic(ts, id, u, item);
            if u' == u && name == item.topic
            then FindTopic(r, u, name).Some? && FindTopic(r, u, name).value.color == item.color
                 && (FindTopic(ts, u, name).Some? ==> FindTopic(r, u, name).value.id == FindTopic(ts, u, name).value.id)
            else FindTopic(r, u', name) == FindTopic(ts, u', name)
  {
    var pos := TopicPos(ts, u, item.topic);
    if pos.Some? {
      RecolourKeepsPositions(ts, pos.value, item.color, u', name);
    } else {
      FindTopicAppend(ts, [Topic(id, u, item.topic, item.color)], u', name);
    }
  }

  /** An upsert never moves a name the user has to another row id. */
  lemma UpsertTopicKeepsId(ts: seq<Topic>, id: Id, u: Id, item: TopicResponse, name: string)
    requires FindTopic(ts, u, name).Some?
    ensures FindTopic(UpsertTopic(ts, id, u, item), u, name).Some?
    ensures FindTopic(UpsertTopic(ts, id, u, item), u, name).value.id == FindTopic(ts, u, name).value.id
  {
    UpsertTopicFinds(ts, id, u, item, u, name);
  }

  // ---------------------------------------------------------------- loops of inserts

  /** The first item named `name`. */
  function FirstItem(items: seq<TopicResponse>, name: string): (r: Option<nat>)
    ensures r.Some? ==> r.value < |items| && items[r.value].topic == name
    ensures r.None? ==> forall j :: 0 <= j < |items| ==> items[j].topic != name
  {
    if |items| == 0 then None
    else
      var f := FirstItem(items[..|items| - 1], name);
      if f.Some? then f else if items[|items| - 1].topic == name then Some(|items| - 1) else None
  }

  /** The last item named `name`. */
  function LastItem(items: seq<TopicResponse>, name: string): (r: Option<nat>)
    ensures r.Some? ==> r.value < |items| && items[r.value].topic == name
    ensures r.None? ==> forall j :: 0 <= j < |items| ==> items[j].topic != name
  {
    if |items| == 0 then None
    else if items[|items| - 1].topic == name then Some(|items| - 1)
    else LastItem(items[..|items| - 1], name)
  }

  /** `items` inserted one after the other with `DO NOTHING`, item `i` offered id `id0 + i`. */
  function InsertAllOrNothing(ts: seq<Topic>, id0: Id, u: Id, items: seq<TopicResponse>): seq<Topic>
  {
    if |items| == 0 then ts
    else InsertTopicOrNothing(InsertAllOrNothing(ts, id0, u, items[..|items| - 1]), id0 + |items| - 1, u, items[|items| - 1])
  }

  /** `items` upserted one after the other, item `i` offered id `id0 + i`. */
  function UpsertAll(ts: seq<Topic>, id0: Id, u: Id, items: seq<TopicResponse>): seq<Topic>
  {
    if |items| == 0 then ts
    else UpsertTopic(UpsertAll(ts, id0, u, items[..|items| - 1]), id0 + |items| - 1, u, items[|items| - 1])
  }

  /**
   * `DO NOTHING` inserts only add rows: the old table is a prefix of the new
   * one, so no existing row, of this user or another, changes colour.
   */
  lemma {:induction false} InsertAllKeepsRows(ts: seq<Topic>, id0: Id, u: Id, items: seq<TopicResponse>)
    ensures |InsertAllOrNothing(ts, id0, u, items)| >= |ts|
    ensures InsertAllOrNothing(ts, id0, u, items)[..|ts|] == ts
    decreases |items|
  {
    if |items| > 0 {
      InsertAllKeepsRows(ts, id0, u, items[..|items| - 1]);
    }
  }

  /**
   * After the `DO NOTHING` inserts, a name the user already had keeps its
   * row; a new name has one row, with the colour and id of its first item;
   * names of no item, and other users, are unaffected.
   */
  lemma {:induction false} InsertAllOrNothingFinds(ts: seq<Topic>, id0: Id, u: Id, items: seq<TopicResponse>, u': Id, name: string)
    ensures FindTopic(InsertAllOrNothing(ts, id0, u, items), u', name)
         == if FindTopic(ts, u', name).Some? || u' != u then FindTopic(ts, u', name)
            else if FirstItem(items, name).Some?
            then Some(Topic(id0 + FirstItem(items, name).value, u, name, items[FirstItem(items, name).value].color))
            else None
    decreases |items|
  {
    if |items| > 0 {
      var init := items[..|items| - 1];
      var last := items[|items| - 1];
      var before := InsertAllOrNothing(ts, id0, u, init);
      InsertAllOrNothingFinds(ts, id0, u, init, u', name);
      InsertAllOrNothingFinds(ts, id0, u, init, u, last.topic);
      if FindTopic(before, u, last.topic).None? {
        FindTopicAppend(before, [Topic(id0 + |items| - 1, u, last.topic, last.color)], u', name);
      }
    }
  }

  /**
   * After the upserts, every item's name has a row of user `u` with the
   * colour of its last item; names of no item, and other users, are unaffected.
   */
  lemma {:induction false} UpsertAllFinds(ts: seq<Topic>, id0: Id, u: Id, items: seq<TopicResponse>, u': Id, name: string)
    ensures var r := UpsertAll(ts, id0, u, items);
            if u' == u && LastItem(items, name).Some?
            then FindTopic(r, u, name).Some? && FindTopic(r, u, name).value.color == items[LastItem(items, name).value].color
            else FindTopic(r, u', name) == FindTopic(ts, u', name)
    decreases |items|
  {
    if |items| > 0 {
      var init := items[..|items| - 1];
      var last := items[|items| - 1];
      var before := UpsertAll(ts, id0, u, init);
      assert UpsertAll(ts, id0, u, items) == UpsertTopic(before, id0 + |items| - 1, u, last);
      UpsertAllFinds(ts, id0, u, init, u', name);
      UpsertTopicFinds(before, id0 + |items| - 1, u, last, u', name);
    }
  }

  // ---------------------------------------------------------------- links

  /**
   * `INSERT INTO book_topics (book_id, topic_id) VALUES (b, (SELECT id FROM
   * topics WHERE topic = name AND user_id = u))`. The lookup always finds a
   * row where it is used, right after the name was inserted; without one the
   * insert adds nothing here.
   */
  function LinkByName(ls: seq<BookTopic>, ts: seq<Topic>, b: Id, u: Id, name: string): seq<BookTopic>
  {
    var t := FindTopic(ts, u, name);
    if t.Some? then ls + [BookTopic(b, t.value.id)] else ls
  }

  /** One link per item, in item order, looked up in `ts`. */
  function LinkAllByName(ls: seq<BookTopic>, ts: seq<Topic>, b: Id, u: Id, items: seq<TopicResponse>): seq<BookTopic>
  {
    if |items| == 0 then ls
    else LinkByName(LinkAllByName(ls, ts, b, u, items[..|items| - 1]), ts, b, u, items[|items| - 1].topic)
  }

  /** One link per id, in order. */
  function LinkIds(ls: seq<BookTopic>, b: Id, ids: seq<Id>): seq<BookTopic>
  {
    if |ids| == 0 then ls else LinkIds(ls, b, ids[..|ids| - 1]) + [BookTopic(b, ids[|ids| - 1])]
  }

  /** The old links come first, then link `i` is to `ids[i]`. */
  lemma {:induction false} LinkIdsLinksEach(ls: seq<BookTopic>, b: Id, ids: seq<Id>)
    ensures var r := LinkIds(ls, b, ids);
            && |r| == |ls| + |ids| && r[..|ls|] == ls
            && forall i :: 0 <= i < |ids| ==> r[|ls| + i] == BookTopic(b, ids[i])
    decreases |ids|
  {
    if |ids| > 0 {
      LinkIdsLinksEach(ls, b, ids[..|ids| - 1]);
    }
  }

  /** When every item's name has a row, each item adds exactly one link, to that row. */
  lemma {:induction false} LinkAllByNameLinksEach(ls: seq<BookTopic>, ts: seq<Topic>, b: Id, u: Id, items: seq<TopicResponse>)
    requires forall i :: 0 <= i < |items| ==> FindTopic(ts, u, items[i].topic).Some?
    ensures var r := LinkAllByName(ls, ts, b, u, items);
            && |r| == |ls| + |items| && r[..|ls|] == ls
            && forall i :: 0 <= i < |items| ==> r[|ls| + i] == BookTopic(b, FindTopic(ts, u, items[i].topic).value.id)
    decreases |items|
  {
    if |items| > 0 {
      LinkAllByNameLinksEach(ls, ts, b, u, items[..|items| - 1]);
    }
  }

  /**
   * `SELECT id FROM topics WHERE user_id = u AND topic IN (names)`: the ids
   * of the matching rows in table order, each once.
   */
  function TopicIdsNamed(ts: seq<Topic>, u: Id, names: seq<string>): seq<Id>
  {
    if |ts| == 0 then []
    else
      var t := ts[|ts| - 1];
      var rest := TopicIdsNamed(ts[..|ts| - 1], u, names);
      if t.userId == u && t.topic in names then rest + [t.id] else rest
  }

  /** The ids are those of exactly the user's rows named in `names`. */
  lemma {:induction false} TopicIdsNamedMembers(ts: seq<Topic>, u: Id, names: seq<string>)
    ensures forall id :: id in TopicIdsNamed(ts, u, names) <==>
              exists t :: t in ts && t.id == id && t.userId == u && t.topic in names
    decreases |ts|
  {
    if |ts| > 0 {
      TopicIdsNamedMembers(ts[..|ts| - 1], u, names);
      assert forall x :: x in ts <==> x in ts[..|ts| - 1] || x == ts[|ts| - 1];
    }
  }

  // ---------------------------------------------------------------- deletes

  predicate Referenced(ls: seq<BookTopic>, id: Id)
  {
    exists l :: l in ls && l.topicId == id
  }

  /** `DELETE FROM topics WHERE user_id = u AND id NOT IN (SELECT topic_id FROM book_topics)`. */
  function GcTopics(ts: seq<Topic>, ls: seq<BookTopic>, u: Id): (r: seq<Topic>)
    ensures forall t :: t in r <==> t in ts && (t.userId != u || Referenced(ls, t.id))
  {
    if |ts| == 0 then []
    else
      var rest := GcTopics(ts[..|ts| - 1], ls, u);
      var t := ts[|ts| - 1];
      assert forall x :: x in ts <==> x in ts[..|ts| - 1] || x == t;
      if t.userId != u || Referenced(ls, t.id) then rest + [t] else rest
  }

  /** `DELETE FROM book_topics WHERE book_id = b`. */
  function UnlinkBook(ls: seq<BookTopic>, b: Id): (r: seq<BookTopic>)
    ensures forall l :: l in r <==> l in ls && l.bookId != b
  {
    if |ls| == 0 then []
    else
      var rest := UnlinkBook(ls[..|ls| - 1], b);
      var l := ls[|ls| - 1];
      assert forall x :: x in ls <==> x in ls[..|ls| - 1] || x == l;
      if l.bookId != b then rest + [l] else rest
  }

  // ---------------------------------------------------------------- the topic join

  /** The topic rows with id `id`, as responses. */
  function TopicsWithId(ts: seq<Topic>, id: Id): seq<TopicResponse>
  {
    if |ts| == 0 then []
    else
      var t := ts[|ts| - 1];
      var rest := TopicsWithId(ts[..|ts| - 1], id);
      if t.id == id then rest + [TopicResponse(t.topic, t.color)] else rest
  }

  /** The responses are those of exactly the rows with id `id`. */
  lemma {:induction false} TopicsWithIdMembers(ts: seq<Topic>, id: Id)
    ensures forall x :: x in TopicsWithId(ts, id) <==> exists t :: t in ts && t.id == id && x == TopicResponse(t.topic, t.color)
    decreases |ts|
  {
    if |ts| > 0 {
      TopicsWithIdMembers(ts[..|ts| - 1], id);
      assert forall x :: x in ts <==> x in ts[..|ts| - 1] || x == ts[|ts| - 1];
    }
  }

  /**
   * `SELECT topics.topic, topics.color FROM topics JOIN book_topics ON
   * topics.id = book_topics.topic_id WHERE book_topics.book_id = b`, in link order.
   */
  function TopicsOfBook(ts: seq<Topic>, ls: seq<BookTopic>, b: Id): seq<TopicResponse>
  {
    if |ls| == 0 then []
    else
      var l := ls[|ls| - 1];
      var rest := TopicsOfBook(ts, ls[..|ls| - 1], b);
      if l.bookId == b then rest + TopicsWithId(ts, l.topicId) else rest
  }

  /** The join holds exactly the topics of the rows some link of book `b` names. */
  lemma {:induction false} TopicsOfBookMembers(ts: seq<Topic>, ls: seq<BookTopic>, b: Id)
    ensures forall x :: x in TopicsOfBook(ts, ls, b) <==>
              exists l, t :: l in ls && l.bookId == b && t in ts && t.id == l.topicId && x == TopicResponse(t.topic, t.color)
    decreases |ls|
  {
    if |ls| > 0 {
      TopicsOfBookMembers(ts, ls[..|ls| - 1], b);
      TopicsWithIdMembers(ts, ls[|ls| - 1].topicId);
      assert forall x :: x in ls <==> x in ls[..|ls| - 1] || x == ls[|ls| - 1];
    }
  }

  // ---------------------------------------------------------------- the topic counts

  /** The books table has a row with id `b` owned by user `u`. */
  predicate OwnedBy(books: seq<Book>, b: Id, u: Id)
  {
    exists bk :: bk in books && bk.id == b && bk.userId == Some(u)
  }

  /** `SELECT COUNT(*) FROM books WHERE user_id = u`. */
  function CountBooksOf(books: seq<Book>, u: Id): (n: nat)
    ensures n <= |books|
    ensures n == 0 <==> forall bk :: bk in books ==> bk.userId != Some(u)
  {
    if |books| == 0 then 0
    else
      assert forall x :: x in books <==> x in books[..|books| - 1] || x == books[|books| - 1];
      CountBooksOf(books[..|books| - 1], u) + (if books[|books| - 1].userId == Some(u) then 1 else 0)
  }

  /** Each row of `rs` paired with the book id `b`. */
  function Tagged(rs: seq<TopicResponse>, b: Id): (r: seq<(TopicResponse, Id)>)
    ensures |r| == |rs| && forall i :: 0 <= i < |rs| ==> r[i] == (rs[i], b)
    ensures forall x :: x in r <==> x.0 in rs && x.1 == b
  {
    seq(|rs|, i requires 0 <= i < |rs| => (rs[i], b))
  }

  /**
   * The rows of `topics JOIN book_topics ON book_topics.topic_id = topics.id
   * JOIN books ON books.id = book_topics.book_id WHERE books.user_id = u`:
   * a topic's name and colour with the id of the book it tags.
   */
  function TopicBookRows(ts: seq<Topic>, ls: seq<BookTopic>, books: seq<Book>, u: Id): seq<(TopicResponse, Id)>
  {
    if |ls| == 0 then []
    else
      var rest := TopicBookRows(ts, ls[..|ls| - 1], books, u);
      var l := ls[|ls| - 1];
      if OwnedBy(books, l.bookId, u) then rest + Tagged(TopicsWithId(ts, l.topicId), l.bookId) else rest
  }

  /** A row pairs a topic of the user's book with that book, through one of its links. */
  lemma {:induction false} TopicBookRowsMembers(ts: seq<Topic>, ls: seq<BookTopic>, books: seq<Book>, u: Id)
    ensures forall x :: x in TopicBookRows(ts, ls, books, u) <==>
              exists l, t :: l in ls && OwnedBy(books, l.bookId, u) && t in ts && t.id == l.topicId
                             && x == (TopicResponse(t.topic, t.color), l.bookId)
    decreases |ls|
  {
    if |ls| > 0 {
      var l := ls[|ls| - 1];
      TopicBookRowsMembers(ts, ls[..|ls| - 1], books, u);
      assert forall x :: x in ls <==> x in ls[..|ls| - 1] || x == l;
      TopicsWithIdMembers(ts, l.topicId);
    }
  }

  /** The `GROUP BY topics.topic, topics.color` keys: each key of `rows` once, in order of first appearance. */
  function GroupKeys(rows: seq<(TopicResponse, Id)>): seq<TopicResponse>
  {
    if |rows| == 0 then []
    else
      var rest := GroupKeys(rows[..|rows| - 1]);
      var g := rows[|rows| - 1].0;
      if g in rest then rest else rest + [g]
  }

  /** The keys are exactly those of the rows, each once. */
  lemma {:induction false} GroupKeysOnce(rows: seq<(TopicResponse, Id)>)
    ensures forall g :: g in GroupKeys(rows) <==> exists x :: x in rows && x.0 == g
    ensures forall g :: multiset(GroupKeys(rows))[g] <= 1
    decreases |rows|
  {
    if |rows| > 0 {
      GroupKeysOnce(rows[..|rows| - 1]);
      assert forall x :: x in rows <==> x in rows[..|rows| - 1] || x == rows[|rows| - 1];
    }
  }

  /** `COUNT(DISTINCT books.id)` within the group `g`. */
  function BooksTagged(rows: seq<(TopicResponse, Id)>, g: TopicResponse): set<Id>
  {
    set x | x in rows && x.0 == g :: x.1
  }

  /** The groups' topic lists order: `ORDER BY topics.topic`. */
  function TopicOrder(x: TopicResponse, y: TopicResponse): bool
  {
    LexLe(x.topic, y.topic)
  }

  /** The grouped rows, each with its count of distinct books. */
  function Counted(rows: seq<(TopicResponse, Id)>, groups: seq<TopicResponse>): (r: seq<BookTopicListResponse>)
    ensures |r| == |groups|
    ensures forall i :: 0 <= i < |groups| ==>
              r[i] == BookTopicListResponse(groups[i].topic, groups[i].color, |BooksTagged(rows, groups[i])|)
  {
    seq(|groups|, i requires 0 <= i < |groups| =>
      BookTopicListResponse(groups[i].topic, groups[i].color, |BooksTagged(rows, groups[i])|))
  }

  /**
   * `GetUserBooksTopics`: an `"all"` entry with no colour counting the user's
   * books, then every (topic, colour) tagging one of the user's books, ordered
   * by topic name, with the number of distinct books it tags.
   */
  function UserBooksTopics(ts: seq<Topic>, ls: seq<BookTopic>, books: seq<Book>, u: Id): (r: seq<BookTopicListResponse>)
    ensures |r| >= 1 && r[0] == BookTopicListResponse("all", "", CountBooksOf(books, u))
  {
    var rows := TopicBookRows(ts, ls, books, u);
    [BookTopicListResponse("all", "", CountBooksOf(books, u))] + Counted(rows, SortBy(GroupKeys(rows), TopicOrder))
  }

  lemma TopicOrderIsTotalPreorder()
    ensures IsTotalPreorder(TopicOrder)
  {
    forall x: TopicResponse, y: TopicResponse
      ensures TopicOrder(x, y) || TopicOrder(y, x)
    {
      LexLeTotal(x.topic, y.topic);
    }
    forall x: TopicResponse, y: TopicResponse, z: TopicResponse | TopicOrder(x, y) && TopicOrder(y, z)
      ensures TopicOrder(x, z)
    {
      LexLeTransitive(x.topic, y.topic, z.topic);
    }
  }

  /** Two equal elements at different positions occur at least twice. */
  lemma TwoPositions<T>(s: seq<T>, i: nat, j: nat)
    requires i < j < |s| && s[i] == s[j]
    ensures multiset(s)[s[i]] >= 2
  {
    assert s == s[..j] + [s[j]] + s[j + 1..];
    assert s[i] == s[..j][i];
  }

  /** The groups after the `"all"` entry, sorted by name. */
  function SortedKeys(ts: seq<Topic>, ls: seq<BookTopic>, books: seq<Book>, u: Id): seq<TopicResponse>
  {
    SortBy(GroupKeys(TopicBookRows(ts, ls, books, u)), TopicOrder)
  }

  /** The list is the `"all"` entry followed by the counted groups in name order. */
  lemma UserBooksTopicsShape(ts: seq<Topic>, ls: seq<BookTopic>, books: seq<Book>, u: Id)
    ensures UserBooksTopics(ts, ls, books, u)
         == [BookTopicListResponse("all", "", CountBooksOf(books, u))] + Counted(TopicBookRows(ts, ls, books, u), SortedKeys(ts, ls, books, u))
  {
  }

  lemma SortedKeysSorted(ts: seq<Topic>, ls: seq<BookTopic>, books: seq<Book>, u: Id)
    ensures SortedBy(SortedKeys(ts, ls, books, u), TopicOrder)
  {
    TopicOrderIsTotalPreorder();
    SortBySorted(GroupKeys(TopicBookRows(ts, ls, books, u)), TopicOrder);
  }

  lemma SortedKeysOnce(ts: seq<Topic>, ls: seq<BookTopic>, books: seq<Book>, u: Id)
    ensures forall g :: multiset(SortedKeys(ts, ls, books, u))[g] <= 1
  {
    var keys := GroupKeys(TopicBookRows(ts, ls, books, u));
    GroupKeysOnce(TopicBookRows(ts, ls, books, u));
    assert multiset(SortedKeys(ts, ls, books, u)) == multiset(keys);
  }

  lemma SortedKeysMembers(ts: seq<Topic>, ls: seq<BookTopic>, books: seq<Book>, u: Id, g: TopicResponse)
    ensures g in SortedKeys(ts, ls, books, u) <==> exists x :: x in TopicBookRows(ts, ls, books, u) && x.0 == g
  {
    var keys := GroupKeys(TopicBookRows(ts, ls, books, u));
    var sorted := SortedKeys(ts, ls, books, u);
    GroupKeysOnce(TopicBookRows(ts, ls, books, u));
    assert multiset(sorted) == multiset(keys);
    assert g in sorted <==> g in multiset(sorted);
    assert g in keys <==> g in multiset(keys);
  }

  /** After the `"all"` entry the list is ordered by topic name. */
  lemma UserBooksTopicsSorted(ts: seq<Topic>, ls: seq<BookTopic>, books: seq<Book>, u: Id)
    ensures var r := UserBooksTopics(ts, ls, books, u);
            forall i, j :: 1 <= i < j < |r| ==> LexLe(r[i].topic, r[j].topic)
  {
    UserBooksTopicsShape(ts, ls, books, u);
    SortedKeysSorted(ts, ls, books, u);
    ListedInOrder(UserBooksTopics(ts, ls, books, u), BookTopicListResponse("all", "", CountBooksOf(books, u)),
                  TopicBookRows(ts, ls, books, u), SortedKeys(ts, ls, books, u));
  }

  /** A list that follows name-ordered keys one for one after a head entry is in name order after it. */
  lemma ListedInOrder(r: seq<BookTopicListResponse>, head: BookTopicListResponse, rows: seq<(TopicResponse, Id)>,
                      sorted: seq<TopicResponse>)
    requires r == [head] + Counted(rows, sorted)
    requires SortedBy(sorted, TopicOrder)
    ensures forall i, j :: 1 <= i < j < |r| ==> LexLe(r[i].topic, r[j].topic)
  {
    forall i, j | 1 <= i < j < |r|
      ensures LexLe(r[i].topic, r[j].topic)
    {
      assert r[i] == Counted(rows, sorted)[i - 1] && r[j] == Counted(rows, sorted)[j - 1];
      assert TopicOrder(sorted[i - 1], sorted[j - 1]);
    }
  }

  /** After the `"all"` entry no (topic, colour) group appears twice. */
  lemma UserBooksTopicsDistinct(ts: seq<Topic>, ls: seq<BookTopic>, books: seq<Book>, u: Id)
    ensures var r := UserBooksTopics(ts, ls, books, u);
            forall i, j :: 1 <= i < j < |r| ==> (r[i].topic, r[i].color) != (r[j].topic, r[j].color)
  {
    UserBooksTopicsShape(ts, ls, books, u);
    SortedKeysOnce(ts, ls, books, u);
    ListedOnce(UserBooksTopics(ts, ls, books, u), BookTopicListResponse("all", "", CountBooksOf(books, u)),
               TopicBookRows(ts, ls, books, u), SortedKeys(ts, ls, books, u));
  }

  /** A list that follows its keys one for one after a head entry repeats no key when the keys repeat none. */
  lemma ListedOnce(r: seq<BookTopicListResponse>, head: BookTopicListResponse, rows: seq<(TopicResponse, Id)>,
                   sorted: seq<TopicResponse>)
    requires r == [head] + Counted(rows, sorted)
    requires forall g :: multiset(sorted)[g] <= 1
    ensures forall i, j :: 1 <= i < j < |r| ==> (r[i].topic, r[i].color) != (r[j].topic, r[j].color)
  {
    forall i, j | 1 <= i < j < |r|
      ensures (r[i].topic, r[i].color) != (r[j].topic, r[j].color)
    {
      if (r[i].topic, r[i].color) == (r[j].topic, r[j].color) {
        assert r[i] == Counted(rows, sorted)[i - 1] && r[j] == Counted(rows, sorted)[j - 1];
        assert sorted[i - 1] == sorted[j - 1];
        TwoPositions(sorted, i - 1, j - 1);
      }
    }
  }

  /**
   * A (topic, colour) is listed after the `"all"` entry iff it tags one of
   * the user's books, and its count is the number of distinct such books.
   */
  lemma UserBooksTopicsCovers(ts: seq<Topic>, ls: seq<BookTopic>, books: seq<Book>, u: Id, g: TopicResponse)
    ensures var r := UserBooksTopics(ts, ls, books, u);
            var rows := TopicBookRows(ts, ls, books, u);
            (exists b :: (g, b) in rows) <==>
            (exists i :: 1 <= i < |r| && r[i] == BookTopicListResponse(g.topic, g.color, |BooksTagged(rows, g)|))
  {
    UserBooksTopicsShape(ts, ls, books, u);
    SortedKeysMembers(ts, ls, books, u, g);
    ListedIff(UserBooksTopics(ts, ls, books, u), BookTopicListResponse("all", "", CountBooksOf(books, u)),
              SortedKeys(ts, ls, books, u), TopicBookRows(ts, ls, books, u), g);
  }

  /** A list that follows its keys one for one, with their counts, lists a key exactly when the rows have it. */
  lemma ListedIff(r: seq<BookTopicListResponse>, head: BookTopicListResponse, sorted: seq<TopicResponse>,
                  rows: seq<(TopicResponse, Id)>, g: TopicResponse)
    requires r == [head] + Counted(rows, sorted)
    requires g in sorted <==> exists x :: x in rows && x.0 == g
    ensures (exists b :: (g, b) in rows) <==>
            (exists i :: 1 <= i < |r| && r[i] == BookTopicListResponse(g.topic, g.color, |BooksTagged(rows, g)|))
  {
    if exists b :: (g, b) in rows {
      var b :| (g, b) in rows;
      assert (g, b).0 == g;
      var k :| 0 <= k < |sorted| && sorted[k] == g;
      assert r[k + 1] == Counted(rows, sorted)[k];
      assert r[k + 1] == BookTopicListResponse(g.topic, g.color, |BooksTagged(rows, g)|);
    }
    if exists i :: 1 <= i < |r| && r[i] == BookTopicListResponse(g.topic, g.color, |BooksTagged(rows, g)|) {
      var i :| 1 <= i < |r| && r[i] == BookTopicListResponse(g.topic, g.color, |BooksTagged(rows, g)|);
      assert r[i] == Counted(rows, sorted)[i - 1];
      assert sorted[i - 1] == g;
      var x :| x in rows && x.0 == g;
      assert (g, x.1) == x;
    }
  }

  // ---------------------------------------------------------------- editing a book's topics

  /**
   * The links `EditBook` inserts: right after item `i` is upserted (with id
   * `id0 + i` on offer), a link from `b` to the row of that name, looked up
   * in the table as it is at that moment.
   */
  function EditLinks(ls: seq<BookTopic>, ts: seq<Topic>, id0: Id, b: Id, u: Id, items: seq<TopicResponse>): seq<BookTopic>
  {
    if |items| == 0 then ls
    else LinkByName(EditLinks(ls, ts, id0, b, u, items[..|items| - 1]), UpsertAll(ts, id0, u, items), b, u, items[|items| - 1].topic)
  }

  /** Later upserts never move a row to another id: a name found keeps its id. */
  lemma {:induction false} UpsertAllKeepsIds(ts: seq<Topic>, id0: Id, u: Id, items: seq<TopicResponse>, name: string)
    requires FindTopic(ts, u, name).Some?
    ensures FindTopic(UpsertAll(ts, id0, u, items), u, name).Some?
    ensures FindTopic(UpsertAll(ts, id0, u, items), u, name).value.id == FindTopic(ts, u, name).value.id
    decreases |items|
  {
    if |items| > 0 {
      var init := items[..|items| - 1];
      var before := UpsertAll(ts, id0, u, init);
      assert UpsertAll(ts, id0, u, items) == UpsertTopic(before, id0 + |items| - 1, u, items[|items| - 1]);
      UpsertAllKeepsIds(ts, id0, u, init, name);
      UpsertTopicKeepsId(before, id0 + |items| - 1, u, items[|items| - 1], name);
    }
  }

  /**
   * `EditBook` adds one link per item, in item order, each to the row that
   * finally carries the item's name.
   */
  lemma {:induction false} EditLinksLinksEach(ls: seq<BookTopic>, ts: seq<Topic>, id0: Id, b: Id, u: Id, items: seq<TopicResponse>)
    ensures var r := EditLinks(ls, ts, id0, b, u, items);
            var all := UpsertAll(ts, id0, u, items);
            && |r| == |ls| + |items| && r[..|ls|] == ls
            && forall i :: 0 <= i < |items| ==>
                 FindTopic(all, u, items[i].topic).Some? && r[|ls| + i] == BookTopic(b, FindTopic(all, u, items[i].topic).value.id)
    decreases |items|
  {
    if |items| > 0 {
      var init := items[..|items| - 1];
      var last := items[|items| - 1];
      var before := UpsertAll(ts, id0, u, init);
      var all := UpsertAll(ts, id0, u, items);
      EditLinksLinksEach(ls, ts, id0, b, u, init);
      var r0 := EditLinks(ls, ts, id0, b, u, init);
      assert all == UpsertTopic(before, id0 + |items| - 1, u, last);
      UpsertTopicFinds(before, id0 + |items| - 1, u, last, u, last.topic);
      var r := r0 + [BookTopic(b, FindTopic(all, u, last.topic).value.id)];
      assert EditLinks(ls, ts, id0, b, u, items) == r;
      forall i | 0 <= i < |items|
        ensures FindTopic(all, u, items[i].topic).Some?
        ensures r[|ls| + i] == BookTopic(b, FindTopic(all, u, items[i].topic).value.id)
      {
        if i < |init| {
          assert init[i] == items[i];
          UpsertTopicKeepsId(before, id0 + |items| - 1, u, last, items[i].topic);
          assert r[|ls| + i] == r0[|ls| + i];
        } else {
          assert items[i] == last && |ls| + i == |r0|;
        }
      }
      assert r[..|ls|] == r0[..|ls|];
    }
  }

  /** Upserts touch only rows of user `u`: another user's rows are exactly as before. */
  lemma {:induction false} UpsertAllOtherUsers(ts: seq<Topic>, id0: Id, u: Id, items: seq<TopicResponse>, t: Topic)
    requires t.userId != u
    ensures t in UpsertAll(ts, id0, u, items) <==> t in ts
    decreases |items|
  {
    if |items| > 0 {
      var init := items[..|items| - 1];
      var before := UpsertAll(ts, id0, u, init);
      var item := items[|items| - 1];
      UpsertAllOtherUsers(ts, id0, u, init, t);
      var pos := TopicPos(before, u, item.topic);
      if pos.Some? {
        var after := before[pos.value := before[pos.value].(color := item.color)];
        assert t in after ==> t in before by {
          if t in after {
            var k :| 0 <= k < |after| && after[k] == t;
            assert k != pos.value;
          }
        }
        assert t in before ==> t in after by {
          if t in before {
            var k :| 0 <= k < |before| && before[k] == t;
            assert k != pos.value;
            assert after[k] == t;
          }
        }
      }
    }
  }

  /**
   * `EditBook` with a non-empty topic list, on book `b`: the book's old links
   * are dropped and one link per item is added, to the row of the item's
   * name; that row has the colour of the last item naming it; and every row
   * of user `u` that no link references is deleted, while other users' rows
   * stay as they were.
   */
  lemma EditTopicsMeans(ts: seq<Topic>, ls: seq<BookTopic>, id0: Id, b: Id, u: Id, items: seq<TopicResponse>)
    ensures var all := UpsertAll(ts, id0, u, items);
            var ls' := EditLinks(UnlinkBook(ls, b), ts, id0, b, u, items);
            var ts' := GcTopics(all, ls', u);
            && (forall l :: l in ls' <==> (l in ls && l.bookId != b)
                                          || exists i :: 0 <= i < |items| && FindTopic(all, u, items[i].topic).Some? && l == BookTopic(b, FindTopic(all, u, items[i].topic).value.id))
            && (forall i :: 0 <= i < |items| ==>
                  var t := FindTopic(all, u, items[i].topic);
                  && t.Some? && t.value in ts'
                  && t.value.color == items[LastItem(items, items[i].topic).value].color)
            && (forall t :: t in ts' && t.userId == u ==> Referenced(ls', t.id))
            && (forall t: Topic :: t.userId != u ==> (t in ts' <==> t in ts))
  {
    var all := UpsertAll(ts, id0, u, items);
    var base := UnlinkBook(ls, b);
    var ls' := EditLinks(base, ts, id0, b, u, items);
    var ts' := GcTopics(all, ls', u);
    EditLinksLinksEach(base, ts, id0, b, u, items);
    forall l
      ensures l in ls' <==> (l in ls && l.bookId != b)
                            || exists i :: 0 <= i < |items| && FindTopic(all, u, items[i].topic).Some? && l == BookTopic(b, FindTopic(all, u, items[i].topic).value.id)
    {
      if l in ls' {
        var k :| 0 <= k < |ls'| && ls'[k] == l;
        if k < |base| {
          assert ls'[..|base|][k] == l;
        } else {
          assert l == BookTopic(b, FindTopic(all, u, items[k - |base|].topic).value.id);
        }
      }
      if l in ls && l.bookId != b {
        assert l in base;
        var k :| 0 <= k < |base| && base[k] == l;
        assert ls'[..|base|][k] == l;
      }
      if exists i :: 0 <= i < |items| && FindTopic(all, u, items[i].topic).Some? && l == BookTopic(b, FindTopic(all, u, items[i].topic).value.id) {
        var i :| 0 <= i < |items| && FindTopic(all, u, items[i].topic).Some? && l == BookTopic(b, FindTopic(all, u, items[i].topic).value.id);
        assert ls'[|base| + i] == l;
      }
    }
    forall i | 0 <= i < |items|
      ensures var t := FindTopic(all, u, items[i].topic);
              && t.Some? && t.value in ts'
              && t.value.color == items[LastItem(items, items[i].topic).value].color
    {
      var name := items[i].topic;
      UpsertAllFinds(ts, id0, u, items, u, name);
      var t := FindTopic(all, u, name).value;
      var pos := TopicPos(all, u, name).value;
      assert all[pos] == t && t in all;
      assert ls'[|base| + i] == BookTopic(b, t.id);
      assert ls'[|base| + i] in ls';
    }
    forall t: Topic | t.userId != u
      ensures t in ts' <==> t in ts
    {
      UpsertAllOtherUsers(ts, id0, u, items, t);
    }
  }
}
