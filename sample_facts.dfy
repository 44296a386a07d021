/** Properties of the copy of the sample books to a new user (`Samples`). */
module SampleFacts {
  import opened Wrappers
  import opened Domain
  import opened Rows
  import opened PickOrder
  import opened Tagging
  import opened Queries
  import opened Tables
  import opened Books
  import opened Samples

  /** A turn that does not break is step 1.1 followed by steps 1.2 to 1.6. */
  lemma CopySampleGoesOn(s: Snapshot, src: Book, u: Id, now: Time)
    requires !CopySample(s, src, u, now).Stopped?
    ensures |OrderedPicks(s.picks, src.id, "desc")| != 0
    ensures CopySample(s, src, u, now)
            == CopyPicked(WithCopyOf(s, src, u, now), s.nextId, OrderedPicks(s.picks, src.id, "desc"), TopicsOfBook(s.topics, s.bookTopics, src.id), u)
  {
  }

  /**
   * When every keyword names a pick older than the id sequence, the lookup
   * by the freshly drawn pick ids finds nothing: a turn never panics and
   * copies no keyword.
   */
  lemma FreshIdsFindNoKeywords(s: Snapshot, src: Book, u: Id, now: Time)
    requires forall k :: k in s.keywords ==> k.pickId < s.nextId
    ensures !CopySample(s, src, u, now).Panicked?
    ensures CopySample(s, src, u, now).tables.keywords == s.keywords
  {
    var b := s.nextId;
    var picks := OrderedPicks(s.picks, src.id, "desc");
    if |picks| > 0 {
      var copies := SampleCopies(picks, u, b, b + 1);
      var ids := IdsOf(copies);
      forall i | 0 <= i < |ids|
        ensures ids[i] > b
      {
        assert ids[i] == copies[i].id;
      }
      NoKeywordsFound(s.keywords, copies, u, b + 1);
    }
  }

  /** Picks whose ids are all at least `n` find none of the keywords below `n`, and copy none. */
  lemma NoKeywordsFound(keywords: seq<Keyword>, copies: seq<Pick>, u: Id, n: int)
    requires forall k :: k in keywords ==> k.pickId < n
    requires forall i :: 0 <= i < |IdsOf(copies)| ==> IdsOf(copies)[i] >= n
    ensures CopiedKeywords(keywords, copies, u) == Some(keywords)
  {
    var ids := IdsOf(copies);
    assert KeywordsOf(keywords, ids) == [];
    assert keywords + [] == keywords;
  }

  /**
   * A turn that goes through adds only rows of the new book and the new
   * topics: the book copy with the next id, and ids only grow.
   */
  lemma CopySampleAddsBook(s: Snapshot, src: Book, u: Id, now: Time)
    requires !CopySample(s, src, u, now).Panicked?
    ensures var s' := CopySample(s, src, u, now).tables;
            && s'.books == s.books + [Book(s.nextId, s.nextId, Some(u), src.title, src.author, now, now)]
            && s'.nextId > s.nextId
            && (forall p :: p in s'.picks ==> p in s.picks || p.bookId == s.nextId)
            && (forall p :: p in s.picks ==> p in s'.picks)
            && (CopySample(s, src, u, now).Stopped? <==> PicksOf(s.picks, src.id) == [])
  {
    var picks := OrderedPicks(s.picks, src.id, "desc");
    OrderedPicksMeans(s.picks, src.id, "desc");
    assert |picks| == |PicksOf(s.picks, src.id)| by {
      assert |multiset(picks)| == |multiset(PicksOf(s.picks, src.id))|;
    }
  }

  /**
   * With keywords older than the id sequence, a run never panics and copies
   * no keyword.
   */
  lemma {:induction false} CopySamplesNeverPanic(s: Snapshot, samples: seq<Book>, u: Id, now: Time)
    requires forall k :: k in s.keywords ==> k.pickId < s.nextId
    ensures CopySamples(s, samples, u, now).Some?
    ensures CopySamples(s, samples, u, now).value.keywords == s.keywords
    decreases |samples|
  {
    if |samples| > 0 {
      FreshIdsFindNoKeywords(s, samples[0], u, now);
      CopySampleAddsBook(s, samples[0], u, now);
      var step := CopySample(s, samples[0], u, now);
      if step.Continued? {
        CopySamplesNeverPanic(step.tables, samples[1..], u, now);
      }
    }
  }

  /**
   * The books a run adds are one copy per sample, in order, up to the first
   * sample without picks.
   */
  lemma {:induction false} CopySamplesCopiesInOrder(s: Snapshot, samples: seq<Book>, u: Id, now: Time)
    requires CopySamples(s, samples, u, now).Some?
    ensures CopiesInOrder(s.books, CopySamples(s, samples, u, now).value.books, samples, u)
    decreases |samples|
  {
    if |samples| == 0 {
      assert s.books[..|s.books|] == s.books;
    } else {
      var step := CopySample(s, samples[0], u, now);
      CopySampleAddsBook(s, samples[0], u, now);
      var s' := step.tables;
      if step.Stopped? {
        assert CopySamples(s, samples, u, now) == Some(s');
        assert s'.books[..|s'.books|] == s'.books;
      } else {
        assert CopySamples(s, samples, u, now) == CopySamples(s', samples[1..], u, now);
        CopySamplesCopiesInOrder(s', samples[1..], u, now);
      }
      BooksExtend(s.books, s'.books, CopySamples(s, samples, u, now).value.books, samples, u);
    }
  }

  /**
   * `r` starts with `books` and goes on with one copy for each of the first
   * samples of `samples`, in order.
   */
  predicate CopiesInOrder(books: seq<Book>, r: seq<Book>, samples: seq<Book>, u: Id)
  {
    && |books| <= |r| <= |books| + |samples|
    && r[..|books|] == books
    && forall j :: |books| <= j < |r| ==> CopiedFrom(r[j], samples[j - |books|], u)
  }

  /** One more copy in front of the copies of the remaining samples. */
  lemma BooksExtend(books: seq<Book>, mid: seq<Book>, r: seq<Book>, samples: seq<Book>, u: Id)
    requires |samples| > 0 && |mid| == |books| + 1 && mid[..|books|] == books && CopiedFrom(mid[|books|], samples[0], u)
    requires CopiesInOrder(mid, r, samples[1..], u)
    ensures CopiesInOrder(books, r, samples, u)
  {
    assert r[..|books|] == mid[..|books|];
    forall j | |books| <= j < |r|
      ensures CopiedFrom(r[j], samples[j - |books|], u)
    {
      if j == |books| {
        assert r[j] == mid[j];
      }
    }
  }

  /** A run copies every sample when each sample has a pick. */
  lemma {:induction false} CopySamplesCopiesAll(s: Snapshot, samples: seq<Book>, u: Id, now: Time)
    requires CopySamples(s, samples, u, now).Some?
    requires forall b :: b in samples ==> PicksOf(s.picks, b.id) != []
    ensures |CopySamples(s, samples, u, now).value.books| == |s.books| + |samples|
    decreases |samples|
  {
    if |samples| > 0 {
      var src := samples[0];
      CopySampleAddsBook(s, src, u, now);
      var s' := CopySample(s, src, u, now).tables;
      forall b | b in samples[1..]
        ensures PicksOf(s'.picks, b.id) != []
      {
        assert b in samples;
        var p := PicksOf(s.picks, b.id)[0];
        assert p in PicksOf(s.picks, b.id);
        assert p in PicksOf(s'.picks, b.id);
      }
      CopySamplesCopiesAll(s', samples[1..], u, now);
    }
  }

  /**
   * The topics of a sample: after a turn that goes through, every topic of
   * the sample names a row of the user — the one the user already had,
   * unchanged, otherwise a new one — and the copy is linked to that row.
   */
  lemma SampleTopicsCopied(s: Snapshot, src: Book, u: Id, now: Time, i: nat)
    requires CopySample(s, src, u, now).Continued?
    requires i < |TopicsOfBook(s.topics, s.bookTopics, src.id)|
    ensures var s' := CopySample(s, src, u, now).tables;
            var name := TopicsOfBook(s.topics, s.bookTopics, src.id)[i].topic;
            var t := FindTopic(s'.topics, u, name);
            && t.Some?
            && (FindTopic(s.topics, u, name).Some? ==> t == FindTopic(s.topics, u, name))
            && BookTopic(s.nextId, t.value.id) in s'.bookTopics
  {
    var picks := OrderedPicks(s.picks, src.id, "desc");
    var items := TopicsOfBook(s.topics, s.bookTopics, src.id);
    var withBook := WithCopyOf(s, src, u, now);
    CopySampleGoesOn(s, src, u, now);
    assert withBook.topics == s.topics && withBook.bookTopics == s.bookTopics;
    PickedTopicsCopied(withBook, s.nextId, picks, items, u, i);
  }

  /** `SampleTopicsCopied` for steps 1.2 to 1.6 from the tables `t`. */
  lemma PickedTopicsCopied(t: Snapshot, b: Id, picks: seq<Pick>, items: seq<TopicResponse>, u: Id, i: nat)
    requires CopyPicked(t, b, picks, items, u).Continued?
    requires i < |items|
    ensures var t' := CopyPicked(t, b, picks, items, u).tables;
            var found := FindTopic(t'.topics, u, items[i].topic);
            && found.Some?
            && (FindTopic(t.topics, u, items[i].topic).Some? ==> found == FindTopic(t.topics, u, items[i].topic))
            && BookTopic(b, found.value.id) in t'.bookTopics
  {
    var id1 := t.nextId + |picks|;
    var topics := InsertAllOrNothing(t.topics, id1, u, items);
    var links := LinkAllByName(t.bookTopics, topics, b, u, items);
    assert CopyPicked(t, b, picks, items, u).tables.topics == topics;
    assert CopyPicked(t, b, picks, items, u).tables.bookTopics == links;
    forall j | 0 <= j < |items|
      ensures FindTopic(topics, u, items[j].topic).Some?
    {
      InsertAllOrNothingFinds(t.topics, id1, u, items, u, items[j].topic);
    }
    LinkAllByNameLinksEach(t.bookTopics, topics, b, u, items);
    InsertAllOrNothingFinds(t.topics, id1, u, items, u, items[i].topic);
    assert links[|t.bookTopics| + i] in links;
  }
}
