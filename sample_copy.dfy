/**
 * The statements of `CopyBookSamplesToUser` (`internal/utility/bookSamples.go`),
 * each proved to compute what `Samples` says a turn of its loop does.
 */
module SampleCopy {
  import opened Wrappers
  import opened Domain
  import opened Rows
  import opened PickOrder
  import opened Tagging
  import opened Queries
  import opened Tables
  import opened Books
  import opened Samples

  /**
   * `CopyBookSamplesToUser(userID, tx)`: the tables end as `CopySamples`
   * says; the result is `nil` unless a turn panics.
   */
  method CopyBookSamplesToUser(db: Store, u: Id, now: Time) returns (err: Outcome<Error>)
    modifies db
    ensures var r := CopySamples(old(db.State()), SampleBooks(old(db.books)), u, now);
            && (err == Pass <==> r.Some?)
            && (err.Fail? ==> err.error == Panic)
            && (r.Some? ==> db.State() == r.value)
    ensures unchanged(db`users, db`sessions, db`topicColors)
  {
    var samples := SampleBooks(db.books);
    ghost var goal := CopySamples(db.State(), samples, u, now);
    var i := 0;
    while i < |samples|
      invariant i <= |samples|
      invariant goal == CopySamples(db.State(), samples[i..], u, now)
      invariant unchanged(db`users, db`sessions, db`topicColors)
    {
      assert samples[i..][0] == samples[i] && samples[i..][1..] == samples[i + 1..];
      var step := SampleRows(db.State(), samples[i], u, now);
      if step.Panicked? {
        // the panic leaves the function; the caller's transaction rolls the turn's rows back
        return Fail(Panic);
      }
      WriteRows(db, step.tables);
      if step.Stopped? {
        // `break`, then `return err` with the first query's nil error
        return Pass;
      }
      i := i + 1;
    }
    return Pass;
  }

  /** The turn's rows written to the store. */
  method WriteRows(db: Store, t: Snapshot)
    modifies db
    ensures db.State() == t
    ensures unchanged(db`users, db`sessions, db`topicColors)
  {
    db.books, db.picks, db.topics, db.bookTopics, db.keywords, db.outbox, db.nextId := t.books, t.picks, t.topics, t.bookTopics, t.keywords, t.outbox, t.nextId;
  }

  /** The rows one turn of the loop writes, built statement by statement from the tables `s`. */
  method SampleRows(s: Snapshot, src: Book, u: Id, now: Time) returns (r: Turn)
    ensures r == CopySample(s, src, u, now)
  {
    var b := s.nextId;
    var withBook := WithCopyOf(s, src, u, now);
    var picks := OrderedPicks(s.picks, src.id, "desc");
    if |picks| == 0 {
      return Stopped(withBook);
    }
    var items := TopicsOfBook(s.topics, s.bookTopics, src.id);
    assert CopySample(s, src, u, now) == CopyPicked(withBook, b, picks, items, u);
    r := CopyPickedRows(withBook, b, picks, items, u);
  }

  /** Steps 1.2 to 1.6, statement by statement. */
  method CopyPickedRows(t: Snapshot, b: Id, picks: seq<Pick>, items: seq<TopicResponse>, u: Id) returns (r: Turn)
    ensures r == CopyPicked(t, b, picks, items, u)
  {
    var copies := CopySamplePicks(picks, u, b, t.nextId);
    var id1 := t.nextId + |picks|;
    var topics := InsertTopicsOrNothing(t.topics, id1, u, items);
    var links := LinkTopicsByName(t.bookTopics, topics, b, u, items);
    var keywords := CopyKeywordRows(t.keywords, copies, u);
    if keywords.None? {
      return Panicked;
    }
    return Continued(Snapshot(t.books, t.picks + copies, topics, links, keywords.value, t.outbox, id1 + |items|));
  }

  /** Steps 1.5 and 1.6 of a turn: the copied picks' ids, the keywords found by them, their copies. */
  method CopyKeywordRows(keywords: seq<Keyword>, copies: seq<Pick>, u: Id) returns (r: Option<seq<Keyword>>)
    ensures r == CopiedKeywords(keywords, copies, u)
  {
    var ids := IdsOf(copies);
    var found := KeywordsOf(keywords, ids);
    if |found| != 0 {
      var copied := CopyKeywords(found, ids, u);
      if copied.None? {
        return None;
      }
      return Some(keywords + copied.value);
    }
    assert KeywordCopies(found, ids, u).value == [] && keywords + [] == keywords;
    return Some(keywords);
  }

  /** `for i, pick := range picks { picksCopy[i] = domain.BookPick{...} }`. */
  method CopySamplePicks(picks: seq<Pick>, u: Id, b: Id, id0: Id) returns (r: seq<Pick>)
    ensures r == SampleCopies(picks, u, b, id0)
  {
    r := [];
    for i := 0 to |picks|
      invariant r == SampleCopies(picks[..i], u, b, id0)
    {
      r := r + [picks[i].(id := id0 + i, guid := id0 + i, bookId := b, userId := u)];
    }
    assert picks[..|picks|] == picks;
  }
}
