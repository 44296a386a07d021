/**
 * `CopyBookSamplesToUser` (`internal/utility/bookSamples.go`): every sample
 * book (a book with no owner) is copied to a newly created user, with its
 * picks, its topics and its search keywords, inside the caller's
 * transaction.
 *
 * For each sample, in table order: the book is inserted for the user; its
 * picks, read `ORDER BY index DESC`, are copied in one bulk insert; each of
 * its topics is inserted for the user `ON CONFLICT DO NOTHING` and the copy
 * is linked to the user's row of that name; finally the keywords of the
 * *copied* picks are looked up and copied by position. A sample without
 * picks makes the bulk insert fail with `gorm.ErrEmptySlice`, which ends the
 * loop; the function still returns the error of its first query, `nil`.
 */
module Samples {
  import opened Wrappers
  import opened Domain
  import opened Rows
  import opened PickOrder
  import opened Tagging
  import opened Queries
  import opened Tables
  import opened Books

  /** `SELECT * FROM books WHERE user_id IS NULL`, in table order. */
  function SampleBooks(books: seq<Book>): (r: seq<Book>)
    ensures forall b :: b in r <==> b in books && b.userId.None?
  {
    Filter(books, (b: Book) => b.userId.None?)
  }

  /**
   * The copies of a sample's picks: each pick as it was (content, text, title
   * and index) but in book `b`, owned by `u`, the `i`-th with id and guid `id0 + i`.
   */
  function SampleCopies(picks: seq<Pick>, u: Id, b: Id, id0: Id): (r: seq<Pick>)
    ensures |r| == |picks|
    ensures forall i :: 0 <= i < |picks| ==> r[i] == picks[i].(id := id0 + i, guid := id0 + i, bookId := b, userId := u)
  {
    seq(|picks|, i requires 0 <= i < |picks| => picks[i].(id := id0 + i, guid := id0 + i, bookId := b, userId := u))
  }

  /** A book copied from sample `src` for user `u`. */
  predicate CopiedFrom(copy: Book, src: Book, u: Id)
  {
    copy.userId == Some(u) && copy.title == src.title && copy.author == src.author
  }

  /**
   * How a turn of the loop ends: it panics (copying the keywords indexes
   * past the copied picks), it breaks out of the loop (a sample without
   * picks), or the loop goes on; with the tables it leaves.
   */
  datatype Turn = Panicked | Stopped(tables: Snapshot) | Continued(tables: Snapshot)

  /** One turn of the loop, for sample `src`: step 1.1, then the rest when the sample has picks. */
  function CopySample(s: Snapshot, src: Book, u: Id, now: Time): Turn
  {
    var picks := OrderedPicks(s.picks, src.id, "desc");
    if |picks| == 0 then Stopped(WithCopyOf(s, src, u, now))
    else CopyPicked(WithCopyOf(s, src, u, now), s.nextId, picks, TopicsOfBook(s.topics, s.bookTopics, src.id), u)
  }

  /** Step 1.1: the copy of `src` for `u`, with the next id as id and guid, created and updated at `now`. */
  function WithCopyOf(s: Snapshot, src: Book, u: Id, now: Time): Snapshot
  {
    s.(books := s.books + [Book(s.nextId, s.nextId, Some(u), src.title, src.author, now, now)], nextId := s.nextId + 1)
  }

  /**
   * Steps 1.2 to 1.6 from the tables `t`, for the copy `b` of a sample with
   * the picks `picks` (by index, descending) and the topics `items`: the
   * picks copied from id `t.nextId` on; each topic inserted for `u` unless
   * `u` has it already, and `b` linked to `u`'s row of that name; the
   * keywords of the copied picks copied by position.
   */
  function CopyPicked(t: Snapshot, b: Id, picks: seq<Pick>, items: seq<TopicResponse>, u: Id): Turn
  {
    var copies := SampleCopies(picks, u, b, t.nextId);
    var id1 := t.nextId + |picks|;
    var topics := InsertAllOrNothing(t.topics, id1, u, items);
    var keywords := CopiedKeywords(t.keywords, copies, u);
    if keywords.None? then Panicked
    else
      Continued(Snapshot(t.books, t.picks + copies, topics, LinkAllByName(t.bookTopics, topics, b, u, items),
                         keywords.value, t.outbox, id1 + |items|))
  }

  /**
   * Steps 1.5 and 1.6: the keywords of the picks `copies` looked up by their
   * ids and copied by position; None when there are more of them than picks.
   */
  function CopiedKeywords(keywords: seq<Keyword>, copies: seq<Pick>, u: Id): Option<seq<Keyword>>
  {
    var ids := IdsOf(copies);
    var copied := KeywordCopies(KeywordsOf(keywords, ids), ids, u);
    if copied.None? then None else Some(keywords + copied.value)
  }

  /** The loop over `samples` from the tables `s`: None when a turn panics. */
  function CopySamples(s: Snapshot, samples: seq<Book>, u: Id, now: Time): Option<Snapshot>
    decreases |samples|
  {
    if |samples| == 0 then Some(s)
    else
      var step := CopySample(s, samples[0], u, now);
      match step
      case Panicked => None
      case Stopped(t) => Some(t)
      case Continued(t) => CopySamples(t, samples[1..], u, now)
  }
}
