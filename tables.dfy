/**
 * The database the services share (the `*gorm.DB` they hold): one table per
 * row type, the topic colour palette, the pick-keywords queue (an outbox of
 * the messages sent to it) and the id sequence.
 *
 * New rows draw their `id` and their `guid` from `nextId`. Like a Postgres
 * sequence it only moves forward: a rolled-back transaction, or an `INSERT
 * ... ON CONFLICT DO NOTHING` that inserts nothing, still uses up the ids it
 * drew. The queue is outside the database, so a rollback never takes a sent
 * message back.
 */
module Tables {
  import opened Wrappers
  import opened Uuids
  import opened Domain
  import opened Rows

  /** The tables the book service writes, the queue and the sequence, at one moment. */
  datatype Snapshot = Snapshot(books: seq<Book>, picks: seq<Pick>, topics: seq<Topic>, bookTopics: seq<BookTopic>,
                               keywords: seq<Keyword>, outbox: seq<KeywordMessage>, nextId: nat)

  class Store {
    var users: seq<User>
    var sessions: seq<Session>
    var books: seq<Book>
    var picks: seq<Pick>
    var topics: seq<Topic>
    var bookTopics: seq<BookTopic>
    var keywords: seq<Keyword>
    var topicColors: seq<string>
    var outbox: seq<KeywordMessage>
    var nextId: nat

    /** An empty database with the given colour palette; ids start at 1, so no row gets `uuid.Nil`. */
    constructor(palette: seq<string>)
      ensures users == [] && sessions == [] && books == [] && picks == []
      ensures topics == [] && bookTopics == [] && keywords == [] && outbox == []
      ensures topicColors == palette && nextId == 1
    {
      users, sessions, books, picks := [], [], [], [];
      topics, bookTopics, keywords, outbox := [], [], [], [];
      topicColors := palette;
      nextId := 1;
    }

    function State(): Snapshot
      reads this
    {
      Snapshot(books, picks, topics, bookTopics, keywords, outbox, nextId)
    }
  }

  // ---------------------------------------------------------------- lookups

  function UserByGuid(users: seq<User>, guid: Uuid): Option<User>
  {
    First(users, (u: User) => u.guid == guid)
  }

  function BookByGuid(books: seq<Book>, guid: Uuid): Option<Book>
  {
    First(books, (b: Book) => b.guid == guid)
  }

  /** `WHERE guid = ? AND user_id = ?`. */
  function OwnedBookByGuid(books: seq<Book>, guid: Uuid, u: Id): Option<Book>
  {
    First(books, (b: Book) => b.guid == guid && b.userId == Some(u))
  }

  /** The position of the pick of book `b` with guid `guid`. */
  function PickPos(ps: seq<Pick>, b: Id, guid: Uuid): Option<nat>
  {
    FirstWhere(ps, (p: Pick) => p.bookId == b && p.guid == guid)
  }

  /** The `id` of a book found by a lookup whose error is ignored: a missing book leaves the zero `domain.Book`, id 0. */
  function IdOrZero(b: Option<Book>): Id
  {
    if b.Some? then b.value.id else 0
  }

  // ---------------------------------------------------------------- deletes

  /**
   * `DELETE FROM books WHERE id IN ids`, with the `ON DELETE CASCADE` of
   * `book_picks.book_id` and `book_topics.book_id`: the three tables without
   * the rows of those books.
   */
  function BooksWithout(books: seq<Book>, ids: set<Id>): (r: seq<Book>)
    ensures forall b :: b in r <==> b in books && b.id !in ids
  {
    Filter(books, (b: Book) => b.id !in ids)
  }

  function PicksWithout(ps: seq<Pick>, ids: set<Id>): (r: seq<Pick>)
    ensures forall p :: p in r <==> p in ps && p.bookId !in ids
  {
    Filter(ps, (p: Pick) => p.bookId !in ids)
  }

  function LinksWithout(ls: seq<BookTopic>, ids: set<Id>): (r: seq<BookTopic>)
    ensures forall l :: l in r <==> l in ls && l.bookId !in ids
  {
    Filter(ls, (l: BookTopic) => l.bookId !in ids)
  }
}
