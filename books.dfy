/**
 * The book service (`internal/book/service.go`) over the shared `Store`.
 *
 * Reads are functions of the tables; each operation that writes is a method
 * that changes the tables step by step as the Go code's statements do. A
 * transaction whose function returns an error rolls the tables back to
 * their state at its start; the id sequence and the queue keep what
 * happened inside it.
 */
module Books {
  import opened Wrappers
  import opened Uuids
  import opened Domain
  import opened Text
  import opened Rows
  import opened PickOrder
  import opened Tagging
  import opened Queries
  import opened Tables
  import Levenshtein

  /** What `CreateBookPick` returns: the new book, or the pick added to an existing book. */
  datatype Created = NewBook(book: BookResponse) | NewPick(pick: BookPickResponse)

  /**
   * The index `CreateBookPick` gives a pick added to book `b`: the caller's
   * index unchecked, else one past the greatest index, else 1 (the plucked
   * greatest index stays 0 when the book has no pick).
   */
  function AppendIndex(ps: seq<Pick>, b: Id, index: Option<nat>): nat
  {
    if index.Some? then index.value
    else
      var m := MaxIndex(ps, b);
      if m.Some? then m.value + 1 else 1
  }

  /** Appending to a contiguous book with picks takes the next free index, the pick count. */
  lemma AppendIndexOfContiguous(ps: seq<Pick>, b: Id)
    requires Contiguous(ps, b) && CountIn(ps, b) > 0
    ensures AppendIndex(ps, b, None) == CountIn(ps, b)
  {
    MaxIndexOfContiguous(ps, b);
  }

  /** A book with no pick gets its first appended pick at index 1, and is then not contiguous. */
  lemma AppendToEmptyBookSkipsZero(ps: seq<Pick>, b: Id, p: Pick)
    requires CountIn(ps, b) == 0
    requires p.bookId == b && p.index == AppendIndex(ps, b, None)
    ensures p.index == 1
    ensures !Contiguous(ShiftUp(ps, b, 1) + [p], b)
  {
    MaxIndexIsGreatest(ps, b);
    CountInPositive(ps, b);
    InsertPastEndBreaksContiguity(ps, b, 1, p);
  }

  /** The `(topic, colour)` pairs of the generated labels, label `i` with drawn colour `i`. */
  function Labels(names: seq<string>, colors: seq<string>): (r: seq<TopicResponse>)
    requires |colors| >= |names|
    ensures |r| == |names| && forall i :: 0 <= i < |names| ==> r[i] == TopicResponse(names[i], colors[i])
  {
    seq(|names|, i requires 0 <= i < |names| => TopicResponse(names[i], colors[i]))
  }

  /** `ORDER BY RANDOM() LIMIT n` over `topic_colors`: `n` colours of the palette, or all of them when it is smaller. */
  predicate IsColorDraw(colors: seq<string>, palette: seq<string>, n: nat)
  {
    |colors| == Rows.Min(n, |palette|) && forall c :: c in colors ==> c in palette
  }

  /** The ids of the books `DeleteBook` removes: the caller's book with that guid. */
  function DoomedBooks(books: seq<Book>, users: seq<User>, userID: Uuid, bookID: Uuid): set<Id>
  {
    var owner := UserByGuid(users, userID);
    set b | b in books && owner.Some? && b.userId == Some(owner.value.id) && b.guid == bookID :: b.id
  }

  /** The book `DeleteBookPick` works on: the one with the guid, or id 0 when Postgres reads no uuid in the text or no book has it. */
  function TargetBook(books: seq<Book>, bookIdText: string): Id
  {
    var g := PgParse(bookIdText);
    if g.Some? then IdOrZero(BookByGuid(books, g.value)) else 0
  }

  /** The author a new book is stored with: the caller's, else what the Google Books lookup returned ("" when it failed). */
  function AuthorFor(data: CreateBookBody, lookedUp: string): string
  {
    if data.author == "" then lookedUp else data.author
  }

  /** `UPDATE books SET updated_at = now WHERE id = b`. */
  function Touched(books: seq<Book>, b: Id, now: Time): (r: seq<Book>)
    ensures |r| == |books|
    ensures forall i :: 0 <= i < |books| ==>
              r[i] == if books[i].id == b then books[i].(updatedAt := now) else books[i]
  {
    seq(|books|, i requires 0 <= i < |books| =>
      if books[i].id == b then books[i].(updatedAt := now) else books[i])
  }

  /** The edit body's topics as (topic, colour) items. */
  function TopicItems(topics: seq<EditBookTopicParams>): (r: seq<TopicResponse>)
    ensures |r| == |topics| && forall i :: 0 <= i < |topics| ==> r[i] == TopicResponse(topics[i].topic, topics[i].color)
  {
    Map(topics, (t: EditBookTopicParams) => TopicResponse(t.topic, t.color))
  }

  /** `UPDATE books SET title = title, updated_at = now WHERE guid = g AND user_id = u`. */
  function Retitled(books: seq<Book>, g: Uuid, u: Id, title: string, now: Time): (r: seq<Book>)
    ensures |r| == |books|
    ensures forall i :: 0 <= i < |books| ==>
              r[i] == if books[i].guid == g && books[i].userId == Some(u) then books[i].(title := title, updatedAt := now) else books[i]
  {
    seq(|books|, i requires 0 <= i < |books| =>
      if books[i].guid == g && books[i].userId == Some(u) then books[i].(title := title, updatedAt := now) else books[i])
  }

  /** `UPDATE books SET author = author, updated_at = now WHERE guid = g AND user_id = u`. */
  function Reauthored(books: seq<Book>, g: Uuid, u: Id, author: string, now: Time): (r: seq<Book>)
    ensures |r| == |books|
    ensures forall i :: 0 <= i < |books| ==>
              r[i] == if books[i].guid == g && books[i].userId == Some(u) then books[i].(author := author, updatedAt := now) else books[i]
  {
    seq(|books|, i requires 0 <= i < |books| =>
      if books[i].guid == g && books[i].userId == Some(u) then books[i].(author := author, updatedAt := now) else books[i])
  }

  /** The books after `EditBook`'s title and author updates (each only when non-empty). */
  function EditedBooks(books: seq<Book>, g: Uuid, u: Id, title: string, author: string, now: Time): seq<Book>
  {
    var titled := if title != "" then Retitled(books, g, u, title, now) else books;
    if author != "" then Reauthored(titled, g, u, author, now) else titled
  }

  /** `EditBook` changes only the caller's book with the guid, and only the fields it was given. */
  lemma EditedBooksTouchOnlyTheBook(books: seq<Book>, g: Uuid, u: Id, title: string, author: string, now: Time)
    ensures var r := EditedBooks(books, g, u, title, author, now);
            && |r| == |books|
            && forall i :: 0 <= i < |books| ==>
                 if books[i].guid == g && books[i].userId == Some(u) && (title != "" || author != "")
                 then r[i] == books[i].(title := if title != "" then title else books[i].title,
                                        author := if author != "" then author else books[i].author,
                                        updatedAt := now)
                 else r[i] == books[i]
  {
  }

  /**
   * The pick `EditBookPick` edits: `book_id = (SELECT id FROM books WHERE
   * guid = bookId) AND guid = pickId`, the first such row; None when a text
   * is no uuid Postgres reads (`PgParse`) or no row matches.
   */
  function EditedPickPos(books: seq<Book>, ps: seq<Pick>, body: EditBookPickBody): (r: Option<nat>)
    ensures r.Some? ==>
              && r.value < |ps|
              && PgParse(body.bookId).Some? && PgParse(body.pickId).Some?
              && BookByGuid(books, PgParse(body.bookId).value).Some?
              && ps[r.value].bookId == BookByGuid(books, PgParse(body.bookId).value).value.id
              && ps[r.value].guid == PgParse(body.pickId).value
    ensures r.None? && PgParse(body.bookId).Some? && PgParse(body.pickId).Some?
              && BookByGuid(books, PgParse(body.bookId).value).Some? ==>
              forall j :: 0 <= j < |ps| ==>
                !(ps[j].bookId == BookByGuid(books, PgParse(body.bookId).value).value.id && ps[j].guid == PgParse(body.pickId).value)
  {
    var bg := PgParse(body.bookId);
    var pg := PgParse(body.pickId);
    if bg.None? || pg.None? then None
    else
      var b := BookByGuid(books, bg.value);
      if b.None? then None else PickPos(ps, b.value.id, pg.value)
  }

  /** A pick with the body's fields written: content and text only when non-empty, the title only when given. */
  function Patched(p: Pick, body: EditBookPickBody): Pick
  {
    p.(content := if body.content != "" then body.content else p.content,
       contentText := if body.text != "" then body.text else p.contentText,
       title := if body.title.Some? then body.title.value else p.title)
  }

  /** `UPDATE book_picks SET <the given fields> WHERE guid = g`, whatever the book. */
  function PatchedWhere(ps: seq<Pick>, g: Uuid, body: EditBookPickBody): (r: seq<Pick>)
    ensures |r| == |ps|
    ensures forall i :: 0 <= i < |ps| ==> r[i] == if ps[i].guid == g then Patched(ps[i], body) else ps[i]
  {
    seq(|ps|, i requires 0 <= i < |ps| => if ps[i].guid == g then Patched(ps[i], body) else ps[i])
  }

  /**
   * Leaving the text out of the body on a pick that has one still counts as
   * a 100% change, so a keyword message carrying the empty text is queued,
   * while the pick keeps its text.
   */
  lemma EmptyTextStillEnqueues(p: Pick, body: EditBookPickBody)
    requires p.contentText != "" && body.text == ""
    ensures Levenshtein.ChangedAtLeast20(p.contentText, body.text)
    ensures Patched(p, body).contentText == p.contentText
  {
    Levenshtein.FromOrToEmptyChanges(p.contentText);
  }

  /** The keyword rows `AddPickKeywords` inserts: one per keyword, in order, for pick `pickID` and user `u`. */
  function KeywordRows(pickID: Id, keywords: seq<string>, u: Id): (r: seq<Keyword>)
    ensures |r| == |keywords| && forall i :: 0 <= i < |keywords| ==> r[i] == Keyword(pickID, keywords[i], u)
  {
    seq(|keywords|, i requires 0 <= i < |keywords| => Keyword(pickID, keywords[i], u))
  }

  /**
   * `SaveBook`'s copies of the source picks: same content, text and index,
   * no title, in the new book `b`, owned by `u`, the `i`-th taking id `id0 + i`.
   */
  function CopiedPicks(picks: seq<Pick>, u: Id, b: Id, id0: Id): (r: seq<Pick>)
    ensures |r| == |picks|
    ensures forall i :: 0 <= i < |picks| ==>
              r[i] == Pick(id0 + i, id0 + i, b, u, picks[i].content, picks[i].contentText, "", picks[i].index)
  {
    seq(|picks|, i requires 0 <= i < |picks| =>
      Pick(id0 + i, id0 + i, b, u, picks[i].content, picks[i].contentText, "", picks[i].index))
  }

  /** The ids of some picks, in order. */
  function IdsOf(ps: seq<Pick>): (r: seq<Id>)
    ensures |r| == |ps| && forall i :: 0 <= i < |ps| ==> r[i] == ps[i].id
  {
    Map(ps, (p: Pick) => p.id)
  }

  /** `SELECT * FROM pick_search_keywords WHERE pick_id IN ids`, in table order. */
  function KeywordsOf(keywords: seq<Keyword>, ids: seq<Id>): (r: seq<Keyword>)
    ensures forall k :: k in r <==> k in keywords && k.pickId in ids
  {
    Filter(keywords, (k: Keyword) => k.pickId in ids)
  }

  /**
   * `SaveBook`'s keyword copies: keyword `i` found is given to pick
   * `ids[i]`, by position; more keywords than picks is an index out of range
   * (None).
   */
  function KeywordCopies(found: seq<Keyword>, ids: seq<Id>, u: Id): (r: Option<seq<Keyword>>)
    ensures r.None? <==> |found| > |ids|
    ensures r.Some? ==> |r.value| == |found| && forall i :: 0 <= i < |found| ==> r.value[i] == Keyword(ids[i], found[i].keyword, u)
  {
    if |found| > |ids| then None
    else Some(seq(|found|, i requires 0 <= i < |found| => Keyword(ids[i], found[i].keyword, u)))
  }

  class BookService {
    const db: Store

    constructor(db: Store)
      ensures this.db == db
    {
      this.db := db;
    }

    // ------------------------------------------------------------ reads

    /** `GetBookByGuid`: the first book with the guid, or `ErrRecordNotFound`. */
    function GetBookByGuid(guid: Uuid): (r: Result<Book, Error>)
      reads db
      ensures r.Success? ==> r.value in db.books && r.value.guid == guid
      ensures r.Failure? ==> r.error == RecordNotFound && forall b :: b in db.books ==> b.guid != guid
    {
      var b := BookByGuid(db.books, guid);
      if b.Some? then Success(b.value) else Failure(RecordNotFound)
    }

    /**
     * `GetCompleteBookByGuid`: the book with the guid, whoever owns it (the
     * user id is only logged), as a `BookResponse`; `draw` is the random
     * preview choice.
     */
    function GetCompleteBookByGuid(userID: Uuid, bookID: Uuid, draw: nat): (r: Result<BookResponse, Error>)
      reads db
      ensures r.Success? ==> exists b :: b in db.books && b.guid == bookID
                                       && r.value == BookResponseOf(b, db.picks, db.topics, db.bookTopics, draw)
      ensures r.Failure? ==> r.error == RecordNotFound && forall b :: b in db.books ==> b.guid != bookID
    {
      var b := GetBookByGuid(bookID);
      if b.Success? then Success(BookResponseOf(b.value, db.picks, db.topics, db.bookTopics, draw))
      else Failure(b.error)
    }

    /**
     * `GetShortBooksList`: the caller's books whose title contains the search
     * text, newest update first, paged, each cut down to guid and title.
     */
    method GetShortBooksList(userID: Uuid, params: BookListParams) returns (r: Result<seq<ShortBookResponse>, Error>)
      ensures r.Failure? <==> UserByGuid(db.users, userID).None?
      ensures r.Failure? ==> r.error == RecordNotFound
      ensures r.Success? ==>
                var list := ShortListBooks(db.books, UserByGuid(db.users, userID).value.id, params);
                |r.value| == |list| && forall i :: 0 <= i < |list| ==> r.value[i] == ShortBookFromBook(list[i])
    {
      var user := UserByGuid(db.users, userID);
      if user.None? {
        return Failure(RecordNotFound);
      }
      var shortBooks := ShortBooksFromBookList(ShortListBooks(db.books, user.value.id, params));
      return Success(shortBooks);
    }

    /**
     * `GetBooks`: one `BookResponse` per book of the homepage list, in list
     * order; `draw(id)` is the random preview choice for book `id`.
     */
    method GetBooks(userID: Uuid, params: BookListParams, draw: Id -> nat) returns (r: Result<seq<BookResponse>, Error>)
      ensures r.Failure? <==> UserByGuid(db.users, userID).None?
      ensures r.Failure? ==> r.error == RecordNotFound
      ensures r.Success? ==>
                var list := HomeBooks(db.books, db.bookTopics, db.topics, UserByGuid(db.users, userID).value.id, params);
                && |r.value| == |list|
                && forall i :: 0 <= i < |list| ==>
                     r.value[i] == BookResponseOf(list[i], db.picks, db.topics, db.bookTopics, draw(list[i].id))
    {
      var user := UserByGuid(db.users, userID);
      if user.None? {
        return Failure(RecordNotFound);
      }
      var books := HomeBooks(db.books, db.bookTopics, db.topics, user.value.id, params);
      var response := BookResponses(books, db.picks, db.topics, db.bookTopics, draw);
      return Success(response);
    }

    /**
     * `GetPicksByBook`: a page of the book's picks in the requested order.
     * With an until-pick the page size is the number of picks after it
     * rounded up to a multiple of the limit (`UntilPage`).
     */
    function GetPicksByBook(params: GetPicksParams): (r: Result<seq<BookPickResponse>, Error>)
      reads db
      ensures GoParse(params.bookId).None? ==> r == Failure(InvalidUuid)
      ensures GoParse(params.bookId).Some? && BookByGuid(db.books, GoParse(params.bookId).value).None? ==> r == Failure(RecordNotFound)
      ensures r == Failure(Panic) ==> params.untilPickId != "" && params.limit == 0
      ensures r.Success? ==>
                var b := BookByGuid(db.books, GoParse(params.bookId).value).value;
                && (forall x :: x in r.value ==> exists p :: p in db.picks && p.bookId == b.id && x == PickResponse(p))
                && (forall i, j :: 0 <= i < j < |r.value| ==>
                      if params.orderBy == "asc" then r.value[i].index <= r.value[j].index
                      else r.value[i].index >= r.value[j].index)
      ensures r.Success? && params.untilPickId == "" && params.offset <= 0 ==>
                var b := BookByGuid(db.books, GoParse(params.bookId).value).value;
                params.limit < 0 || params.limit >= CountIn(db.picks, b.id) ==> |r.value| == CountIn(db.picks, b.id)
    {
      var g := GoParse(params.bookId);
      if g.None? then Failure(InvalidUuid)
      else
        var book := GetBookByGuid(g.value);
        if book.Failure? then Failure(book.error)
        else BookPicksPage(db.picks, book.value.id, params)
    }

    /** `GetUserBooksTopics`: the "all" entry counting the caller's books, then a count per topic. */
    function GetUserBooksTopics(userID: Uuid): (r: Result<seq<BookTopicListResponse>, Error>)
      reads db
      ensures r.Failure? <==> UserByGuid(db.users, userID).None?
      ensures r.Failure? ==> r.error == RecordNotFound
      ensures r.Success? ==>
                var u := UserByGuid(db.users, userID).value.id;
                && r.value == UserBooksTopics(db.topics, db.bookTopics, db.books, u)
                && r.value[0] == BookTopicListResponse("all", "", CountBooksOf(db.books, u))
    {
      var user := UserByGuid(db.users, userID);
      if user.None? then Failure(RecordNotFound)
      else Success(UserBooksTopics(db.topics, db.bookTopics, db.books, user.value.id))
    }

    // ------------------------------------------------------------ deletes

    /**
     * `DeleteBook`: deletes the book with the guid if the user owns it (its
     * picks and topic links go with it, `ON DELETE CASCADE`); an unknown user
     * or book deletes nothing and is no error.
     */
    method DeleteBook(userID: Uuid, bookID: Uuid) returns (err: Outcome<Error>)
      modifies db
      ensures err == Pass
      ensures var doomed := DoomedBooks(old(db.books), old(db.users), userID, bookID);
              && db.books == BooksWithout(old(db.books), doomed)
              && db.picks == PicksWithout(old(db.picks), doomed)
              && db.bookTopics == LinksWithout(old(db.bookTopics), doomed)
      ensures forall b :: b in db.books ==> !(b.guid == bookID && UserByGuid(db.users, userID).Some?
                                              && b.userId == Some(UserByGuid(db.users, userID).value.id))
      ensures unchanged(db`users, db`sessions, db`topics, db`keywords, db`topicColors, db`outbox, db`nextId)
    {
      var doomed := DoomedBooks(db.books, db.users, userID, bookID);
      db.books := BooksWithout(db.books, doomed);
      db.picks := PicksWithout(db.picks, doomed);
      db.bookTopics := LinksWithout(db.bookTopics, doomed);
      err := Pass;
    }

    /**
     * `DeleteBookPick`, outside any transaction and whatever the user: when
     * the book has exactly one pick the whole book is deleted, whichever pick
     * was named; otherwise the named pick of the book is deleted and the
     * picks after it move down by one.
     */
    method DeleteBookPick(userID: Uuid, params: DeleteBookPickPath) returns (isLastPick: bool, err: Outcome<Error>)
      modifies db
      ensures var b := TargetBook(old(db.books), params.bookId);
              isLastPick <==> CountIn(old(db.picks), b) == 1
      ensures var b := TargetBook(old(db.books), params.bookId);
              isLastPick ==> && err == Pass
                             && db.books == BooksWithout(old(db.books), {b})
                             && db.picks == PicksWithout(old(db.picks), {b})
                             && db.bookTopics == LinksWithout(old(db.bookTopics), {b})
      ensures var b := TargetBook(old(db.books), params.bookId);
              var g := PgParse(params.pickId);
              !isLastPick ==>
                if g.None? then err == Fail(InvalidUuid) && db.picks == old(db.picks)
                else if PickPos(old(db.picks), b, g.value).None? then err == Fail(RecordNotFound) && db.picks == old(db.picks)
                else
                  var q := PickPos(old(db.picks), b, g.value).value;
                  && err == Pass
                  && db.picks == ShiftDown(RemoveAt(old(db.picks), q), b, old(db.picks)[q].index)
                  && (Contiguous(old(db.picks), b) ==> Contiguous(db.picks, b) && CountIn(db.picks, b) == CountIn(old(db.picks), b) - 1)
      ensures !isLastPick ==> unchanged(db`books, db`bookTopics)
      ensures unchanged(db`users, db`sessions, db`topics, db`keywords, db`topicColors, db`outbox, db`nextId)
    {
      var b := TargetBook(db.books, params.bookId);
      var picksCount := CountIn(db.picks, b);
      isLastPick := picksCount == 1;
      if isLastPick {
        db.books := BooksWithout(db.books, {b});
        db.picks := PicksWithout(db.picks, {b});
        db.bookTopics := LinksWithout(db.bookTopics, {b});
        err := Pass;
      } else {
        var g := PgParse(params.pickId);
        if g.None? {
          err := Fail(InvalidUuid);
          return;
        }
        var q := PickPos(db.picks, b, g.value);
        if q.None? {
          err := Fail(RecordNotFound);
          return;
        }
        var removed := db.picks[q.value];
        if Contiguous(db.picks, b) {
          DeleteKeepsContiguous(db.picks, b, q.value);
        }
        db.picks := RemoveAt(db.picks, q.value);
        db.picks := ShiftDown(db.picks, b, removed.index);
        err := Pass;
      }
    }
 
    // ------------------------------------------------------------ creating picks

    /**
     * `CreateBookPick`. The user lookup's error is ignored, so an unknown
     * user is a nil dereference (a panic, which rolls the transaction back).
     * A nil book id creates a new book holding the pick, tagged with the
     * generated topics; any other id adds the pick to the user's book with
     * that guid.
     */
    method CreateBookPick(userID: Uuid, data: CreateBookBody, now: Time, lookedUpAuthor: string, sendOk: bool,
                          generated: Option<seq<string>>, colors: seq<string>)
      returns (response: Option<Created>, err: Outcome<Error>)
      requires data.bookId == Nil && generated.Some? ==>
                 |db.topicColors| >= |generated.value| && IsColorDraw(colors, db.topicColors, |generated.value|)
      modifies db
      ensures UserByGuid(old(db.users), userID).None? ==>
                response.None? && err == Fail(Panic) && unchanged(db)
      ensures UserByGuid(old(db.users), userID).Some? && data.bookId == Nil ==>
                NewBookCreated(old(db.State()), db.State(), UserByGuid(old(db.users), userID).value, userID, data, now,
                               lookedUpAuthor, sendOk, generated, colors, response, err)
      ensures UserByGuid(old(db.users), userID).Some? && data.bookId != Nil ==>
                var user := UserByGuid(old(db.users), userID).value;
                var book := OwnedBookByGuid(old(db.books), data.bookId, user.id);
                if book.None? then response.None? && err == Fail(RecordNotFound) && unchanged(db)
                else if !sendOk then response.None? && err == Fail(QueueSendFailed) && unchanged(db)
                else
                  var b := book.value.id;
                  var k := AppendIndex(old(db.picks), b, data.pick.index);
                  var p := Pick(old(db.nextId), old(db.nextId), b, user.id, data.pick.content, data.pick.contentText, "", k);
                  && err == Pass
                  && response == Some(NewPick(BookPickResponse(p.guid, p.content, k, "")))
                  && db.picks == ShiftUp(old(db.picks), b, k) + [p]
                  && db.books == Touched(old(db.books), b, now)
                  && db.outbox == old(db.outbox) + [KeywordMessage(0, data.pick.contentText, user.guid)]
                  && db.nextId == old(db.nextId) + 1
      ensures unchanged(db`users, db`sessions, db`keywords, db`topicColors)
    {
      var user := UserByGuid(db.users, userID);
      if user.None? {
        return None, Fail(Panic);
      }
      if data.bookId == Nil {
        response, err := CreateInNewBook(user.value, userID, data, now, lookedUpAuthor, sendOk, generated, colors);
      } else {
        response, err := AddToBook(user.value, data, now, sendOk);
      }
    }

    /**
     * The new-book branch of `CreateBookPick`: the book, its pick at index 0
     * and the keyword message carrying the pick's id; then the generated
     * topics, each inserted for the user with its drawn colour unless the
     * user has it already (`ON CONFLICT DO NOTHING`), and a link from the
     * book to every topic of the user named by a label.
     */
    method CreateInNewBook(user: User, userID: Uuid, data: CreateBookBody, now: Time, lookedUpAuthor: string,
                           sendOk: bool, generated: Option<seq<string>>, colors: seq<string>)
      returns (response: Option<Created>, err: Outcome<Error>)
      requires generated.Some? ==> |colors| >= |generated.value|
      modifies db
      ensures NewBookCreated(old(db.State()), db.State(), user, userID, data, now, lookedUpAuthor, sendOk, generated,
                             colors, response, err)
      ensures unchanged(db`users, db`sessions, db`keywords, db`topicColors)
    {
      var before := db.State();
      var id0 := db.nextId;
      var newBook := Book(id0, id0, Some(user.id), data.title, AuthorFor(data, lookedUpAuthor), now, now);
      var newPick := Pick(id0 + 1, id0 + 1, newBook.id, user.id, data.pick.content, data.pick.contentText, "", 0);
      InsertBookWithPick(newBook, newPick);
      var message := KeywordMessage(newPick.id, newPick.contentText, userID);
      if !sendOk {
        RollBack(before);
        NewBookNotSent(before, db.State(), user, userID, data, now, lookedUpAuthor, generated, colors);
        return None, Fail(QueueSendFailed);
      }
      Send(message);
      if generated.None? {
        RollBack(before);
        NewBookNotTagged(before, db.State(), user, userID, data, now, lookedUpAuthor, colors);
        return None, Fail(OracleFailed);
      }
      var names := generated.value;
      var mid := db.State();
      TagNewBook(user.id, newBook.id, names, colors);
      var after := db.State();
      var bookTopics := TopicsOfBook(after.topics, after.bookTopics, newBook.id);
      response := Some(NewBook(BookResponse(newBook.guid, newBook.title, newBook.author, newBook.updatedAt,
                                            newBook.createdAt, 1,
                                            BookPickPreviewResponse(newPick.guid, newPick.contentText),
                                            bookTopics, [BookPickResponse(newPick.guid, newPick.content, 0, "")])));
      err := Pass;
      NewBookCreatedTagged(before, mid, after, user, userID, data, now, lookedUpAuthor, generated, colors, response);
    }

    /**
     * Steps 2 to 4 of tagging a new book: each label inserted for the user
     * with its colour unless the user has it (`ON CONFLICT DO NOTHING`, one
     * id drawn per label), then a link from the book to each of the user's
     * topics named by a label, in table order.
     */
    method TagNewBook(u: Id, b: Id, names: seq<string>, colors: seq<string>)
      requires |colors| >= |names|
      modifies db
      ensures db.State() == TaggedState(old(db.State()), u, b, names, colors)
      ensures unchanged(db`users, db`sessions, db`topicColors)
    {
      var s := db.State();
      var topics := InsertTopicsOrNothing(s.topics, s.nextId, u, Labels(names, colors));
      var links := LinkTopicIds(s.bookTopics, b, TopicIdsNamed(topics, u, names));
      db.topics, db.nextId, db.bookTopics := topics, s.nextId + |names|, links;
    }

    /**
     * The existing-book branch of `CreateBookPick`: the user's book with the
     * guid; the keyword message, built before the pick exists and so carrying
     * pick id 0; every pick of the book at or above the index moved up by
     * one, the pick inserted at the index, and the book's `updated_at` set.
     */
    method AddToBook(user: User, data: CreateBookBody, now: Time, sendOk: bool)
      returns (response: Option<Created>, err: Outcome<Error>)
      modifies db
      ensures var book := OwnedBookByGuid(old(db.books), data.bookId, user.id);
              if book.None? then response.None? && err == Fail(RecordNotFound) && unchanged(db)
              else if !sendOk then response.None? && err == Fail(QueueSendFailed) && unchanged(db)
              else
                var b := book.value.id;
                var k := AppendIndex(old(db.picks), b, data.pick.index);
                var p := Pick(old(db.nextId), old(db.nextId), b, user.id, data.pick.content, data.pick.contentText, "", k);
                && err == Pass
                && response == Some(NewPick(BookPickResponse(p.guid, p.content, k, "")))
                && db.picks == ShiftUp(old(db.picks), b, k) + [p]
                && db.books == Touched(old(db.books), b, now)
                && db.outbox == old(db.outbox) + [KeywordMessage(0, data.pick.contentText, user.guid)]
                && db.nextId == old(db.nextId) + 1
                && unchanged(db`topics, db`bookTopics)
                && (Contiguous(old(db.picks), b) && k <= CountIn(old(db.picks), b) ==>
                      Contiguous(db.picks, b) && CountIn(db.picks, b) == CountIn(old(db.picks), b) + 1)
      ensures unchanged(db`users, db`sessions, db`keywords, db`topicColors)
    {
      var book := OwnedBookByGuid(db.books, data.bookId, user.id);
      if book.None? {
        return None, Fail(RecordNotFound);
      }
      var b := book.value.id;
      var picks, books, id := db.picks, db.books, db.nextId;
      var index := AppendIndex(picks, b, data.pick.index);
      var message := KeywordMessage(0, data.pick.contentText, user.guid);
      if !sendOk {
        return None, Fail(QueueSendFailed);
      }
      Send(message);
      var newPick := Pick(id, id, b, user.id, data.pick.content, data.pick.contentText, "", index);
      if Contiguous(picks, b) && index <= CountIn(picks, b) {
        InsertKeepsContiguous(picks, b, index, newPick);
      }
      // the transaction: the picks at or above the index shifted, the pick inserted, the book touched
      db.picks, db.nextId, db.books := ShiftUp(picks, b, index) + [newPick], id + 1, Touched(books, b, now);
      response := Some(NewPick(BookPickResponse(newPick.guid, newPick.content, index, "")));
      err := Pass;
    }

    /**
     * `EditBookPick`: the pick named by book and pick guid, whoever owns it;
     * a keyword message with the new text when the text changed by at least
     * 20%, sent before the update (a failed send fails the edit); then the
     * given fields written to every row with the pick's guid.
     */
    method EditBookPick(userID: Uuid, body: EditBookPickBody, sendOk: bool) returns (err: Outcome<Error>)
      modifies db
      ensures unchanged(db`users, db`sessions, db`books, db`topics, db`bookTopics, db`keywords, db`topicColors, db`nextId)
      ensures var q := EditedPickPos(old(db.books), old(db.picks), body);
              if PgParse(body.bookId).None? || PgParse(body.pickId).None? then err == Fail(InvalidUuid) && unchanged(db)
              else if q.None? then err == Fail(RecordNotFound) && unchanged(db)
              else
                var pick := old(db.picks)[q.value];
                var changed := Levenshtein.ChangedAtLeast20(pick.contentText, body.text);
                if changed && !sendOk then err == Fail(QueueSendFailed) && unchanged(db)
                else
                  && err == Pass
                  && db.picks == PatchedWhere(old(db.picks), pick.guid, body)
                  && db.outbox == old(db.outbox) + (if changed then [KeywordMessage(pick.id, body.text, userID)] else [])
    {
      if PgParse(body.bookId).None? || PgParse(body.pickId).None? {
        return Fail(InvalidUuid);
      }
      var q := EditedPickPos(db.books, db.picks, body);
      if q.None? {
        return Fail(RecordNotFound);
      }
      var pick := db.picks[q.value];
      var changed := Levenshtein.AtLeast20PercentChanged(pick.contentText, body.text);
      if changed {
        if !sendOk {
          return Fail(QueueSendFailed);
        }
        db.outbox := db.outbox + [KeywordMessage(pick.id, body.text, userID)];
      }
      db.picks := PatchedWhere(db.picks, pick.guid, body);
      return Pass;
    }

    /** `AddPickKeywords`: one keyword row per keyword for the pick; an empty list is gorm's `ErrEmptySlice`. */
    method AddPickKeywords(userID: Uuid, pickID: Id, keywords: seq<string>) returns (err: Outcome<Error>)
      modifies db
      ensures unchanged(db`users, db`sessions, db`books, db`picks, db`topics, db`bookTopics, db`topicColors, db`outbox, db`nextId)
      ensures var user := UserByGuid(db.users, userID);
              if user.None? then err == Fail(RecordNotFound) && db.keywords == old(db.keywords)
              else if |keywords| == 0 then err == Fail(EmptySlice) && db.keywords == old(db.keywords)
              else
                && err == Pass
                && |db.keywords| == |old(db.keywords)| + |keywords|
                && db.keywords[..|old(db.keywords)|] == old(db.keywords)
                && forall i :: 0 <= i < |keywords| ==>
                     db.keywords[|old(db.keywords)| + i] == Keyword(pickID, keywords[i], user.value.id)
    {
      var user := UserByGuid(db.users, userID);
      if user.None? {
        return Fail(RecordNotFound);
      }
      var rows := BuildKeywordRows(pickID, keywords, user.value.id);
      if |rows| == 0 {
        return Fail(EmptySlice);
      }
      db.keywords := db.keywords + rows;
      return Pass;
    }

    /** `SemanticSearch` for the caller: `Queries.SemanticSearch`, or Postgres refusing a negative limit or offset. */
    function SemanticSearch(userID: Uuid, params: SearchGetParams): (r: Result<seq<SemanticSearchResponse>, Error>)
      reads db
      ensures r.Failure? <==> UserByGuid(db.users, userID).None? || params.limit < 0 || params.offset < 0
      ensures UserByGuid(db.users, userID).None? ==> r == Failure(RecordNotFound)
      ensures r.Failure? && UserByGuid(db.users, userID).Some? ==> r.error == NegativeLimitOrOffset
      ensures r.Success? ==>
                var u := UserByGuid(db.users, userID).value.id;
                && Queries.SemanticSearch(db.picks, db.books, db.keywords, u, params) == Some(r.value)
                && |r.value| <= |db.picks|
    {
      var user := UserByGuid(db.users, userID);
      if user.None? then Failure(RecordNotFound)
      else
        var rows := Queries.SemanticSearch(db.picks, db.books, db.keywords, user.value.id, params);
        if rows.None? then Failure(NegativeLimitOrOffset)
        else
          SemanticRowsBound(db.picks, db.books, db.keywords, user.value.id, params.query);
          Success(rows.value)
    }

    /** `SearchPickInBook`: the matches in the book with the guid (any owner's), paged. */
    function SearchPickInBook(params: SearchGetParams): (r: Result<seq<SearchPickInBookResponse>, Error>)
      reads db
      ensures GoParse(params.bookId).None? ==> r == Failure(InvalidUuid)
      ensures GoParse(params.bookId).Some? && BookByGuid(db.books, GoParse(params.bookId).value).None? ==> r == Failure(RecordNotFound)
      ensures GoParse(params.bookId).Some? && BookByGuid(db.books, GoParse(params.bookId).value).Some? ==>
                (r.Failure? <==> params.limit < 0 || params.offset < 0)
      ensures r.Failure? ==> r.error in {InvalidUuid, RecordNotFound, NegativeLimitOrOffset}
      ensures r.Success? ==>
                var b := BookByGuid(db.books, GoParse(params.bookId).value).value;
                SearchInBook(db.picks, b.id, params) == Some(r.value)
    {
      var g := GoParse(params.bookId);
      if g.None? then Failure(InvalidUuid)
      else
        var book := GetBookByGuid(g.value);
        if book.Failure? then Failure(book.error)
        else
          var rows := SearchInBook(db.picks, book.value.id, params);
          if rows.None? then Failure(NegativeLimitOrOffset) else Success(rows.value)
    }

    /**
     * `SaveBook`: a copy of the book with the guid (whoever owns it) for the
     * caller, in one transaction: the book, its picks without their titles,
     * its topics (inserted for the caller unless present) and links, and the
     * keywords of the copied picks, looked up by the new pick ids.
     */
    method SaveBook(userID: Uuid, body: SaveBookBody, now: Time, draw: nat) returns (r: Result<BookResponse, Error>)
      modifies db
      ensures unchanged(db`users, db`sessions, db`topicColors, db`outbox)
      ensures BookSaved(old(db.State()), db.State(), UserByGuid(db.users, userID), BookByGuid(old(db.books), body.bookId),
                        now, draw, r)
    {
      var user := UserByGuid(db.users, userID);
      if user.None? {
        return Failure(RecordNotFound);
      }
      var source := GetBookByGuid(body.bookId);
      if source.Failure? {
        return Failure(RecordNotFound);
      }
      var u := user.value.id;
      var src := source.value;
      if |PicksOf(db.picks, src.id)| == 0 {
        // the book was inserted, drawing an id, and rolled back
        db.nextId := db.nextId + 1;
        return Failure(EmptySlice);
      }
      r := SaveCopy(u, src, now, draw);
    }

    /** `SaveBook`'s transaction once the caller and a source book with picks are known. */
    method SaveCopy(u: Id, src: Book, now: Time, draw: nat) returns (r: Result<BookResponse, Error>)
      modifies db
      ensures unchanged(db`users, db`sessions, db`topicColors, db`outbox)
      ensures CopySaved(old(db.State()), db.State(), u, src, now, draw, r)
    {
      var before := db.State();
      // the source's topics, read here rather than after the inserts of the book and its picks, which do not touch them
      var items := TopicsOfBook(db.topics, db.bookTopics, src.id);
      var copies := CopyRows(u, src, now, items);
      var mid := db.State();
      CopyOfSource(before, u, src, now, copies, items);
      var ok := CopyPickKeywords(u, copies);
      if !ok {
        RollBack(before);
        CopySavedPanic(before, mid, db.State(), u, src, now, draw, copies);
        return Failure(Panic);
      }
      var response := SavedResponse(mid, mid.books[|before.books|], draw);
      CopySavedDone(before, mid, db.State(), u, src, now, draw, copies, response);
      return Success(response);
    }

    /** A book and its first pick inserted in one transaction, each drawing an id. */
    method InsertBookWithPick(book: Book, pick: Pick)
      modifies db
      ensures db.State() == old(db.State()).(books := old(db.books) + [book], picks := old(db.picks) + [pick],
                                             nextId := old(db.nextId) + 2)
      ensures unchanged(db`users, db`sessions, db`topicColors)
    {
      db.books, db.picks, db.nextId := db.books + [book], db.picks + [pick], db.nextId + 2;
    }

    /** A message sent to the pick-keywords queue; no rollback takes it back. */
    method Send(message: KeywordMessage)
      modifies db
      ensures db.State() == old(db.State()).(outbox := old(db.outbox) + [message])
      ensures unchanged(db`users, db`sessions, db`books, db`picks, db`topics, db`bookTopics, db`keywords, db`topicColors, db`nextId)
    {
      db.outbox := db.outbox + [message];
    }

    /** A transaction's rollback: the rows written since `s` are gone; the ids drawn stay drawn. */
    method RollBack(s: Snapshot)
      modifies db
      ensures db.State() == old(db.State()).(books := s.books, picks := s.picks, topics := s.topics, bookTopics := s.bookTopics)
      ensures unchanged(db`users, db`sessions, db`topicColors)
    {
      db.books, db.picks, db.topics, db.bookTopics := s.books, s.picks, s.topics, s.bookTopics;
    }

    /**
     * Step 6 of `SaveBook`: the keywords of the picks `copies` are copied to
     * user `u`, or nothing is written when there are more of them than picks.
     */
    method CopyPickKeywords(u: Id, copies: seq<Pick>) returns (ok: bool)
      modifies db
      ensures var copied := KeywordCopies(KeywordsOf(old(db.keywords), IdsOf(copies)), IdsOf(copies), u);
              && ok == copied.Some?
              && db.State() == old(db.State()).(keywords := if ok then old(db.keywords) + copied.value else old(db.keywords))
      ensures unchanged(db`users, db`sessions, db`topicColors)
    {
      var ids := IdsOf(copies);
      var found := KeywordsOf(db.keywords, ids);
      if |found| != 0 {
        var copied := CopyKeywords(found, ids, u);
        if copied.None? {
          return false;
        }
        db.keywords := db.keywords + copied.value;
      } else {
        assert db.keywords + [] == db.keywords;
      }
      return true;
    }

    /** Steps 1 to 5 of `SaveBook`: the book, its picks, the topics `items` and links; the copied picks are returned. */
    method CopyRows(u: Id, src: Book, now: Time, items: seq<TopicResponse>) returns (copies: seq<Pick>)
      requires items == TopicsOfBook(db.topics, db.bookTopics, src.id)
      modifies db
      ensures copies == CopiedPicks(PicksOf(old(db.picks), src.id), u, old(db.nextId), old(db.nextId) + 1)
      ensures db.State() == CopyOf(old(db.State()), u, src, now, copies, items)
      ensures unchanged(db`users, db`sessions, db`topicColors)
    {
      ghost var before := db.State();
      var id0 := db.nextId;
      copies := CopyBookAndPicks(u, src, now);
      CopyTopics(u, id0, items);
    }

    /** Steps 1 to 4 of `SaveBook`: the new book, then copies of `src`'s picks, one id drawn per row. */
    method CopyBookAndPicks(u: Id, src: Book, now: Time) returns (copies: seq<Pick>)
      modifies db
      ensures var id0 := old(db.nextId);
              && copies == CopiedPicks(PicksOf(old(db.picks), src.id), u, id0, id0 + 1)
              && db.books == old(db.books) + [Book(id0, id0, Some(u), src.title, src.author, now, now)]
              && db.picks == old(db.picks) + copies
              && db.nextId == id0 + 1 + |copies|
      ensures unchanged(db`users, db`sessions, db`topics, db`bookTopics, db`keywords, db`topicColors, db`outbox)
    {
      var id0 := db.nextId;
      // the picks are read first: inserting the book does not touch them
      var picks := PicksOf(db.picks, src.id);
      copies := CopyPicks(picks, u, id0, id0 + 1);
      db.books, db.picks, db.nextId := db.books + [Book(id0, id0, Some(u), src.title, src.author, now, now)], db.picks + copies, id0 + 1 + |copies|;
    }

    /**
     * Step 5 of `SaveBook`: each source topic inserted for user `u` unless
     * present (one id drawn each), then book `b` linked to the row of each name.
     */
    method CopyTopics(u: Id, b: Id, items: seq<TopicResponse>)
      modifies db
      ensures db.topics == InsertAllOrNothing(old(db.topics), old(db.nextId), u, items)
      ensures db.bookTopics == LinkAllByName(old(db.bookTopics), db.topics, b, u, items)
      ensures db.nextId == old(db.nextId) + |items|
      ensures unchanged(db`users, db`sessions, db`books, db`picks, db`keywords, db`topicColors, db`outbox)
    {
      var topics := InsertTopicsOrNothing(db.topics, db.nextId, u, items);
      db.topics := topics;
      db.nextId := db.nextId + |items|;
      var links := LinkTopicsByName(db.bookTopics, db.topics, b, u, items);
      db.bookTopics := links;
    }

    /**
     * `EditBook`, in one transaction: the title and the author of the
     * caller's book when given; with topics, the book's links replaced and
     * colours overwritten (`EditTopicsMeans`); with orders, each named pick
     * re-indexed (`Reindexed`). The book's guid is checked by Postgres only:
     * a text that is no uuid fails the first statement that uses it, and a
     * failed statement aborts the transaction, so the commit fails.
     */
    method EditBook(userID: Uuid, body: EditBookBody, now: Time) returns (err: Outcome<Error>)
      modifies db
      ensures unchanged(db`users, db`sessions, db`topicColors)
      ensures BookEdited(old(db.State()), db.State(), UserByGuid(db.users, userID), body, now, err)
    {
      var user := UserByGuid(db.users, userID);
      if user.None? {
        return Fail(RecordNotFound);
      }
      var u := user.value.id;
      var g := PgParse(body.bookId);
      if g.None? && (body.title != "" || body.author != "") {
        return Fail(InvalidUuid);
      }
      if g.None? && |body.topics| > 0 {
        return Fail(TransactionAborted);
      }
      // the lookup by guid alone that the topic branch makes; the updates below change no guid
      var book := if g.Some? then BookByGuid(db.books, g.value) else None;
      if |body.topics| > 0 && book.None? {
        // the first upsert draws an id, then the link to book 0 breaks the foreign key
        db.nextId := db.nextId + 1;
        return Fail(TransactionAborted);
      }
      ApplyEdits(u, g, book, body, now);
      return Pass;
    }

    /** The statements of `EditBook` once nothing can fail any more. */
    method ApplyEdits(u: Id, g: Option<Uuid>, book: Option<Book>, body: EditBookBody, now: Time)
      requires g.None? ==> body.title == "" && body.author == "" && |body.topics| == 0
      requires g.Some? ==> book == BookByGuid(db.books, g.value)
      requires |body.topics| > 0 ==> book.Some?
      modifies db
      ensures unchanged(db`users, db`sessions, db`topicColors)
      ensures EditApplied(old(db.State()), db.State(), u, g, body, now)
    {
      if g.Some? {
        EditFields(u, g.value, body.title, body.author, now);
      }
      if |body.topics| > 0 {
        RetagBook(u, book.value.id, TopicItems(body.topics));
      }
      if |body.picks| > 0 {
        var picks := ReindexPicks(db.picks, body.picks);
        db.picks := picks;
      }
    }

    /** `EditBook`'s title and author updates. */
    method EditFields(u: Id, g: Uuid, title: string, author: string, now: Time)
      modifies db
      ensures db.books == EditedBooks(old(db.books), g, u, title, author, now)
      ensures unchanged(db`users, db`sessions, db`picks, db`topics, db`bookTopics, db`keywords, db`topicColors, db`outbox, db`nextId)
    {
      if title != "" {
        db.books := Retitled(db.books, g, u, title, now);
      }
      if author != "" {
        db.books := Reauthored(db.books, g, u, author, now);
      }
    }

    /** `EditBook`'s topic branch on book `b`: relink, upsert one id per item, then garbage-collect. */
    method RetagBook(u: Id, b: Id, items: seq<TopicResponse>)
      modifies db
      ensures var links := EditLinks(UnlinkBook(old(db.bookTopics), b), old(db.topics), old(db.nextId), b, u, items);
              && db.bookTopics == links
              && db.topics == GcTopics(UpsertAll(old(db.topics), old(db.nextId), u, items), links, u)
              && db.nextId == old(db.nextId) + |items|
      ensures unchanged(db`users, db`sessions, db`books, db`picks, db`keywords, db`topicColors, db`outbox)
    {
      var topics, links := UpsertAndLink(db.topics, UnlinkBook(db.bookTopics, b), db.nextId, b, u, items);
      db.nextId := db.nextId + |items|;
      db.bookTopics := links;
      db.topics := GcTopics(topics, links, u);
    }
  }

  /**
   * `for index, topic := range topics { INSERT INTO topics ... ON CONFLICT
   * (user_id, topic) DO NOTHING }`: item `i` is offered id `id0 + i`.
   */
  method InsertTopicsOrNothing(ts: seq<Topic>, id0: Id, u: Id, items: seq<TopicResponse>) returns (r: seq<Topic>)
    ensures r == InsertAllOrNothing(ts, id0, u, items)
  {
    r := ts;
    for i := 0 to |items|
      invariant r == InsertAllOrNothing(ts, id0, u, items[..i])
    {
      assert items[..i + 1][..i] == items[..i];
      r := InsertTopicOrNothing(r, id0 + i, u, items[i]);
    }
    assert items[..|items|] == items;
  }

  /** `for _, topicID := range topicIDs { INSERT INTO book_topics (book_id, topic_id) VALUES (b, topicID) }`. */
  method LinkTopicIds(ls: seq<BookTopic>, b: Id, ids: seq<Id>) returns (r: seq<BookTopic>)
    ensures r == LinkIds(ls, b, ids)
  {
    r := ls;
    for j := 0 to |ids|
      invariant r == LinkIds(ls, b, ids[..j])
    {
      assert ids[..j + 1][..j] == ids[..j];
      r := r + [BookTopic(b, ids[j])];
    }
    assert ids[..|ids|] == ids;
  }

  /**
   * The page of book `b`'s picks `GetPicksByBook` answers once the book is
   * found: with an until-pick, the pick's index bounds the page and its size
   * is the number of newer picks rounded up to a multiple of the limit.
   */
  function BookPicksPage(ps: seq<Pick>, b: Id, params: GetPicksParams): (r: Result<seq<BookPickResponse>, Error>)
    ensures r == Failure(Panic) ==> params.untilPickId != "" && params.limit == 0
    ensures r.Success? ==>
              && (forall x :: x in r.value ==> exists p :: p in ps && p.bookId == b && x == PickResponse(p))
              && (forall i, j :: 0 <= i < j < |r.value| ==>
                    if params.orderBy == "asc" then r.value[i].index <= r.value[j].index
                    else r.value[i].index >= r.value[j].index)
    ensures r.Success? && params.untilPickId == "" && params.offset <= 0 ==>
              params.limit < 0 || params.limit >= CountIn(ps, b) ==> |r.value| == CountIn(ps, b)
  {
    if params.untilPickId != "" then PicksUntil(ps, b, params)
    else
      var page := Page(OrderedPicks(ps, b, params.orderBy), params.offset, params.limit);
      OrderedPageMeans(ps, b, params.orderBy, params.offset, params.limit);
      PageResponses(ps, b, params.orderBy, page);
      Success(Map(page, PickResponse))
  }

  /** The loop of `GetBooks`: one response per listed book, in list order. */
  method BookResponses(books: seq<Book>, ps: seq<Pick>, ts: seq<Topic>, ls: seq<BookTopic>, draw: Id -> nat)
    returns (response: seq<BookResponse>)
    ensures |response| == |books|
    ensures forall i :: 0 <= i < |books| ==> response[i] == BookResponseOf(books[i], ps, ts, ls, draw(books[i].id))
  {
    response := [];
    for i := 0 to |books|
      invariant |response| == i
      invariant forall j :: 0 <= j < i ==> response[j] == BookResponseOf(books[j], ps, ts, ls, draw(books[j].id))
    {
      response := response + [BookResponseOf(books[i], ps, ts, ls, draw(books[i].id))];
    }
  }

  /** The until-pick branch of `BookPicksPage`. */
  function PicksUntil(ps: seq<Pick>, b: Id, params: GetPicksParams): (r: Result<seq<BookPickResponse>, Error>)
    ensures r == Failure(Panic) ==> params.limit == 0
    ensures r.Success? ==>
              && (forall x :: x in r.value ==> exists p :: p in ps && p.bookId == b && x == PickResponse(p))
              && (forall i, j :: 0 <= i < j < |r.value| ==>
                    if params.orderBy == "asc" then r.value[i].index <= r.value[j].index
                    else r.value[i].index >= r.value[j].index)
  {
    var until := PgParse(params.untilPickId);
    if until.None? then Failure(InvalidUuid)
    else
      var q := PickPos(ps, b, until.value);
      if q.None? then Failure(RecordNotFound)
      else
        var page := UntilPage(ps, b, params.orderBy, params.offset, params.limit, ps[q.value].index);
        if page.None? then Failure(Panic)
        else
          var upper := UpperLimit(NewerThan(PicksOf(ps, b), ps[q.value].index), params.limit).value;
          OrderedPageMeans(ps, b, params.orderBy, params.offset, upper);
          PageResponses(ps, b, params.orderBy, page.value);
          Success(Map(page.value, PickResponse))
  }

  /** The responses of a page of book `b`'s picks in order: each a pick of the book, in the same order. */
  lemma PageResponses(ps: seq<Pick>, b: Id, orderBy: string, page: seq<Pick>)
    requires forall p :: p in page ==> p in ps && p.bookId == b
    requires forall i, j :: 0 <= i < j < |page| ==>
               if orderBy == "asc" then page[i].index <= page[j].index else page[i].index >= page[j].index
    ensures var r := Map(page, PickResponse);
            && (forall x :: x in r ==> exists p :: p in ps && p.bookId == b && x == PickResponse(p))
            && (forall i, j :: 0 <= i < j < |r| ==>
                  if orderBy == "asc" then r[i].index <= r[j].index else r[i].index >= r[j].index)
  {
    var r := Map(page, PickResponse);
    forall x | x in r
      ensures exists p :: p in ps && p.bookId == b && x == PickResponse(p)
    {
      var i :| 0 <= i < |r| && r[i] == x;
      assert page[i] in page;
    }
  }

  /**
   * The outcome of the new-book branch of `CreateBookPick`. The book gets
   * the next id and the pick the one after; a failed send or topic
   * generation rolls both rows back, but their ids stay used and a sent
   * message stays sent. On success label `i` is offered id `id0 + 2 + i`.
   */
  ghost predicate NewBookCreated(before: Snapshot, after: Snapshot, user: User, userID: Uuid, data: CreateBookBody,
                                 now: Time, lookedUpAuthor: string, sendOk: bool, generated: Option<seq<string>>,
                                 colors: seq<string>, response: Option<Created>, err: Outcome<Error>)
  {
    var id0 := before.nextId;
    var book := Book(id0, id0, Some(user.id), data.title, AuthorFor(data, lookedUpAuthor), now, now);
    var pick := Pick(id0 + 1, id0 + 1, id0, user.id, data.pick.content, data.pick.contentText, "", 0);
    var message := KeywordMessage(id0 + 1, data.pick.contentText, userID);
    if !sendOk then
      response.None? && err == Fail(QueueSendFailed) && after == before.(nextId := id0 + 2)
    else if generated.None? then
      response.None? && err == Fail(OracleFailed) && after == before.(outbox := before.outbox + [message], nextId := id0 + 2)
    else
      var names := generated.value;
      && |colors| >= |names|
      && err == Pass
      && after == TaggedState(before.(books := before.books + [book], picks := before.picks + [pick],
                                      outbox := before.outbox + [message], nextId := id0 + 2),
                              user.id, id0, names, colors)
      && response == Some(NewBook(BookResponse(id0, data.title, book.author, now, now, 1,
                                               BookPickPreviewResponse(pick.guid, pick.contentText),
                                               TopicsOfBook(after.topics, after.bookTopics, id0),
                                               [BookPickResponse(pick.guid, pick.content, 0, "")])))
  }

  /** A failed send rolls the book and its pick back; the two ids drawn stay used. */
  lemma NewBookNotSent(before: Snapshot, after: Snapshot, user: User, userID: Uuid, data: CreateBookBody, now: Time,
                       lookedUpAuthor: string, generated: Option<seq<string>>, colors: seq<string>)
    requires after == before.(nextId := before.nextId + 2)
    ensures NewBookCreated(before, after, user, userID, data, now, lookedUpAuthor, false, generated, colors, None,
                           Fail(QueueSendFailed))
  {
  }

  /** A failed topic generation rolls the book and its pick back; the message sent stays sent. */
  lemma NewBookNotTagged(before: Snapshot, after: Snapshot, user: User, userID: Uuid, data: CreateBookBody, now: Time,
                         lookedUpAuthor: string, colors: seq<string>)
    requires after == before.(outbox := before.outbox + [KeywordMessage(before.nextId + 1, data.pick.contentText, userID)],
                              nextId := before.nextId + 2)
    ensures NewBookCreated(before, after, user, userID, data, now, lookedUpAuthor, true, None, colors, None,
                           Fail(OracleFailed))
  {
  }

  /** The success case of `NewBookCreated`, from the state before tagging and the response read after it. */
  lemma NewBookCreatedTagged(before: Snapshot, mid: Snapshot, after: Snapshot, user: User, userID: Uuid,
                             data: CreateBookBody, now: Time, lookedUpAuthor: string, generated: Option<seq<string>>,
                             colors: seq<string>, response: Option<Created>)
    requires generated.Some? && |colors| >= |generated.value|
    requires var id0 := before.nextId;
             mid == before.(books := before.books + [Book(id0, id0, Some(user.id), data.title, AuthorFor(data, lookedUpAuthor), now, now)],
                            picks := before.picks + [Pick(id0 + 1, id0 + 1, id0, user.id, data.pick.content, data.pick.contentText, "", 0)],
                            outbox := before.outbox + [KeywordMessage(id0 + 1, data.pick.contentText, userID)],
                            nextId := id0 + 2)
    requires after == TaggedState(mid, user.id, before.nextId, generated.value, colors)
    requires var id0 := before.nextId;
             response == Some(NewBook(BookResponse(id0, data.title, AuthorFor(data, lookedUpAuthor), now, now, 1,
                                                   BookPickPreviewResponse(id0 + 1, data.pick.contentText),
                                                   TopicsOfBook(after.topics, after.bookTopics, id0),
                                                   [BookPickResponse(id0 + 1, data.pick.content, 0, "")])))
    ensures NewBookCreated(before, after, user, userID, data, now, lookedUpAuthor, true, generated, colors, response, Pass)
  {
  }

  /**
   * The tables after tagging book `b` of user `u` with the labels `names`:
   * each inserted with its colour unless the user has it (one id drawn per
   * label), then a link from the book to each of the user's topics named by
   * a label, in table order.
   */
  function TaggedState(s: Snapshot, u: Id, b: Id, names: seq<string>, colors: seq<string>): Snapshot
    requires |colors| >= |names|
  {
    var topics := InsertAllOrNothing(s.topics, s.nextId, u, Labels(names, colors));
    s.(topics := topics, nextId := s.nextId + |names|, bookTopics := LinkIds(s.bookTopics, b, TopicIdsNamed(topics, u, names)))
  }

  /**
   * Tagging a new book: label `i` names a topic row of the user after the
   * inserts (the old row when there was one, otherwise a new row with the
   * label's colour), and the book is linked to that row.
   */
  lemma TagsEachLabel(ts: seq<Topic>, ls: seq<BookTopic>, id0: Id, b: Id, u: Id, names: seq<string>, colors: seq<string>, i: nat)
    requires |colors| >= |names| && i < |names|
    ensures var ts' := InsertAllOrNothing(ts, id0, u, Labels(names, colors));
            var t := FindTopic(ts', u, names[i]);
            && t.Some?
            && (FindTopic(ts, u, names[i]).Some? ==> t == FindTopic(ts, u, names[i]))
            && (FindTopic(ts, u, names[i]).None? ==> t.value.color == colors[FirstItem(Labels(names, colors), names[i]).value])
            && BookTopic(b, t.value.id) in LinkIds(ls, b, TopicIdsNamed(ts', u, names))
  {
    var items := Labels(names, colors);
    var name := names[i];
    assert items[i].topic == name;
    InsertAllOrNothingFinds(ts, id0, u, items, u, name);
    var ts' := InsertAllOrNothing(ts, id0, u, items);
    var t := FindTopic(ts', u, name);
    var pos := TopicPos(ts', u, name).value;
    assert t.value == ts'[pos] && t.value in ts';
    var ids := TopicIdsNamed(ts', u, names);
    TopicIdsNamedMembers(ts', u, names);
    assert t.value.id in ids;
    var k :| 0 <= k < |ids| && ids[k] == t.value.id;
    LinkIdsLinksEach(ls, b, ids);
    assert LinkIds(ls, b, ids)[|ls| + k] == BookTopic(b, t.value.id);
  }

  /**
   * After a new book is created, every generated label names a topic of the
   * user: the row the user already had, unchanged, or a new row with the
   * label's drawn colour; no earlier topic row changes; and the new book is
   * linked to each of those topics.
   */
  lemma NewBookTagged(before: Snapshot, after: Snapshot, user: User, userID: Uuid, data: CreateBookBody, now: Time,
                      lookedUpAuthor: string, generated: Option<seq<string>>, colors: seq<string>,
                      response: Option<Created>, err: Outcome<Error>, i: nat)
    requires NewBookCreated(before, after, user, userID, data, now, lookedUpAuthor, true, generated, colors, response, err)
    requires generated.Some? && i < |generated.value|
    ensures var name := generated.value[i];
            var t := FindTopic(after.topics, user.id, name);
            && t.Some?
            && (FindTopic(before.topics, user.id, name).Some? ==> t == FindTopic(before.topics, user.id, name))
            && (FindTopic(before.topics, user.id, name).None? ==> t.value.color == colors[FirstItem(Labels(generated.value, colors), name).value])
            && BookTopic(before.nextId, t.value.id) in after.bookTopics
    ensures |after.topics| >= |before.topics| && after.topics[..|before.topics|] == before.topics
  {
    NewBookCreatedTopics(before, after, user, userID, data, now, lookedUpAuthor, generated, colors, response, err);
    TagsEachLabel(before.topics, before.bookTopics, before.nextId + 2, before.nextId, user.id, generated.value, colors, i);
    InsertAllKeepsRows(before.topics, before.nextId + 2, user.id, Labels(generated.value, colors));
  }

  /** The topic tables after a new book is created, read off `NewBookCreated`. */
  lemma NewBookCreatedTopics(before: Snapshot, after: Snapshot, user: User, userID: Uuid, data: CreateBookBody, now: Time,
                             lookedUpAuthor: string, generated: Option<seq<string>>, colors: seq<string>,
                             response: Option<Created>, err: Outcome<Error>)
    requires NewBookCreated(before, after, user, userID, data, now, lookedUpAuthor, true, generated, colors, response, err)
    requires generated.Some?
    ensures |colors| >= |generated.value|
    ensures var topics := InsertAllOrNothing(before.topics, before.nextId + 2, user.id, Labels(generated.value, colors));
            && after.topics == topics
            && after.bookTopics == LinkIds(before.bookTopics, before.nextId, TopicIdsNamed(topics, user.id, generated.value))
  {
  }

  /**
   * `for _, topic := range body.Topics { upsert the topic; link the book to it }`:
   * item `i` is offered id `id0 + i`, and its link looks the name up right
   * after its upsert.
   */
  method UpsertAndLink(ts: seq<Topic>, ls: seq<BookTopic>, id0: Id, b: Id, u: Id, items: seq<TopicResponse>)
    returns (ts': seq<Topic>, ls': seq<BookTopic>)
    ensures ts' == UpsertAll(ts, id0, u, items)
    ensures ls' == EditLinks(ls, ts, id0, b, u, items)
  {
    ts', ls' := ts, ls;
    for i := 0 to |items|
      invariant ts' == UpsertAll(ts, id0, u, items[..i])
      invariant ls' == EditLinks(ls, ts, id0, b, u, items[..i])
    {
      assert items[..i + 1][..i] == items[..i];
      ts' := UpsertTopic(ts', id0 + i, u, items[i]);
      ls' := LinkByName(ls', ts', b, u, items[i].topic);
    }
    assert items[..|items|] == items;
  }

  /** Some pick among the first `n` of `s` has guid `g`. */
  predicate GuidAmong(s: seq<Pick>, n: nat, g: Uuid)
    requires n <= |s|
  {
    exists m :: 0 <= m < n && s[m].guid == g
  }

  /** `UPDATE book_picks SET index = x WHERE guid = g`. */
  function WithIndexFor(ps: seq<Pick>, g: Uuid, x: nat): (r: seq<Pick>)
    ensures |r| == |ps|
    ensures forall j :: 0 <= j < |ps| ==> r[j] == if ps[j].guid == g then ps[j].(index := x) else ps[j]
  {
    seq(|ps|, j requires 0 <= j < |ps| => if ps[j].guid == g then ps[j].(index := x) else ps[j])
  }

  /**
   * `EditBook`'s reordering as written: the picks named by an order are
   * fetched; a nested loop gives each the index of the last order naming
   * it; then one update per fetched pick writes that index to every row
   * with its guid.
   */
  method ReindexPicks(ps: seq<Pick>, orders: seq<EditBookOrderParams>) returns (r: seq<Pick>)
    ensures r == Reindexed(ps, orders)
  {
    var ids := Map(orders, (o: EditBookOrderParams) => o.guid);
    var fetched := Filter(ps, (p: Pick) => p.guid in ids);
    var updated := fetched;
    for i := 0 to |fetched|
      invariant |updated| == |fetched|
      invariant forall j :: 0 <= j < i ==> updated[j] == Reordered(fetched[j], orders)
      invariant forall j :: i <= j < |fetched| ==> updated[j] == fetched[j]
    {
      var cur := fetched[i];
      for k := 0 to |orders|
        invariant cur == Reordered(fetched[i], orders[..k])
      {
        assert orders[..k + 1][..k] == orders[..k];
        if fetched[i].guid == orders[k].guid {
          cur := cur.(index := orders[k].index);
        }
      }
      assert orders[..|orders|] == orders;
      updated := updated[i := cur];
    }
    r := ps;
    for i := 0 to |updated|
      invariant |r| == |ps|
      invariant forall j :: 0 <= j < |ps| ==> r[j] == if GuidAmong(updated, i, ps[j].guid) then Reordered(ps[j], orders) else ps[j]
    {
      var g := updated[i].guid;
      assert fetched[i] in fetched && g == fetched[i].guid && g in ids;
      var l := LastOrder(orders, g);
      assert l.Some? by {
        var m :| 0 <= m < |ids| && ids[m] == g;
        assert orders[m].guid == g;
      }
      var r' := WithIndexFor(r, g, updated[i].index);
      forall j | 0 <= j < |ps|
        ensures r'[j] == if GuidAmong(updated, i + 1, ps[j].guid) then Reordered(ps[j], orders) else ps[j]
      {
        if ps[j].guid == g {
          assert GuidAmong(updated, i + 1, ps[j].guid) by {
            assert updated[i].guid == ps[j].guid;
          }
        } else {
          assert GuidAmong(updated, i + 1, ps[j].guid) ==> GuidAmong(updated, i, ps[j].guid) by {
            if GuidAmong(updated, i + 1, ps[j].guid) {
              var m :| 0 <= m < i + 1 && updated[m].guid == ps[j].guid;
              assert m != i;
            }
          }
          assert GuidAmong(updated, i, ps[j].guid) ==> GuidAmong(updated, i + 1, ps[j].guid) by {
            if GuidAmong(updated, i, ps[j].guid) {
              var m :| 0 <= m < i && updated[m].guid == ps[j].guid;
              assert updated[m].guid == ps[j].guid;
            }
          }
        }
      }
      r := r';
    }
    forall j | 0 <= j < |ps|
      ensures r[j] == Reordered(ps[j], orders)
    {
      if LastOrder(orders, ps[j].guid).Some? {
        var l := LastOrder(orders, ps[j].guid).value;
        assert ids[l] == ps[j].guid;
        assert ps[j] in fetched;
        var m :| 0 <= m < |fetched| && fetched[m] == ps[j];
        assert updated[m].guid == ps[j].guid;
      }
    }
  }

  /**
   * What `EditBook` leaves in the tables: nothing changed when the user is
   * unknown or a guid text Postgres's uuid input refuses fails; only an id drawn when the
   * book of the topic branch does not exist; otherwise the edited books,
   * the topic changes of `EditTopicsMeans` with one id drawn per topic, and
   * the re-indexed picks.
   */
  ghost predicate BookEdited(before: Snapshot, after: Snapshot, user: Option<User>, body: EditBookBody, now: Time, err: Outcome<Error>)
  {
    var g := PgParse(body.bookId);
    if user.None? then err == Fail(RecordNotFound) && after == before
    else if g.None? && (body.title != "" || body.author != "") then err == Fail(InvalidUuid) && after == before
    else if g.None? && |body.topics| > 0 then err == Fail(TransactionAborted) && after == before
    else if |body.topics| > 0 && BookByGuid(before.books, g.value).None? then
      err == Fail(TransactionAborted) && after == before.(nextId := before.nextId + 1)
    else err == Pass && EditApplied(before, after, user.value.id, g, body, now)
  }

  /** The tables after `EditBook` succeeds for user `u`. */
  ghost predicate EditApplied(before: Snapshot, after: Snapshot, u: Id, g: Option<Uuid>, body: EditBookBody, now: Time)
  {
    var items := TopicItems(body.topics);
    && after.books == (if g.Some? then EditedBooks(before.books, g.value, u, body.title, body.author, now) else before.books)
    && after.picks == (if |body.picks| > 0 then Reindexed(before.picks, body.picks) else before.picks)
    && (if |body.topics| > 0 && g.Some? && BookByGuid(before.books, g.value).Some? then
          var b := BookByGuid(before.books, g.value).value.id;
          var links := EditLinks(UnlinkBook(before.bookTopics, b), before.topics, before.nextId, b, u, items);
          && after.bookTopics == links
          && after.topics == GcTopics(UpsertAll(before.topics, before.nextId, u, items), links, u)
          && after.nextId == before.nextId + |items|
        else
          after.topics == before.topics && after.bookTopics == before.bookTopics && after.nextId == before.nextId)
    && after.keywords == before.keywords
    && after.outbox == before.outbox
  }

  /** `for i, keyword := range keywords { pickKeywords[i] = ... }`. */
  method BuildKeywordRows(pickID: Id, keywords: seq<string>, u: Id) returns (r: seq<Keyword>)
    ensures r == KeywordRows(pickID, keywords, u)
  {
    r := [];
    for i := 0 to |keywords|
      invariant r == KeywordRows(pickID, keywords[..i], u)
    {
      r := r + [Keyword(pickID, keywords[i], u)];
    }
    assert keywords[..|keywords|] == keywords;
  }

  /** `for i, pick := range picks { picksCopy[i] = ... }`. */
  method CopyPicks(picks: seq<Pick>, u: Id, b: Id, id0: Id) returns (r: seq<Pick>)
    ensures r == CopiedPicks(picks, u, b, id0)
  {
    r := [];
    for i := 0 to |picks|
      invariant r == CopiedPicks(picks[..i], u, b, id0)
    {
      r := r + [Pick(id0 + i, id0 + i, b, u, picks[i].content, picks[i].contentText, "", picks[i].index)];
    }
    assert picks[..|picks|] == picks;
  }

  /** `for _, topic := range bookTopics { INSERT INTO book_topics ... (SELECT id FROM topics WHERE topic = ? AND user_id = ?) }`. */
  method LinkTopicsByName(ls: seq<BookTopic>, ts: seq<Topic>, b: Id, u: Id, items: seq<TopicResponse>) returns (r: seq<BookTopic>)
    ensures r == LinkAllByName(ls, ts, b, u, items)
  {
    r := ls;
    for i := 0 to |items|
      invariant r == LinkAllByName(ls, ts, b, u, items[..i])
    {
      assert items[..i + 1][..i] == items[..i];
      r := LinkByName(r, ts, b, u, items[i].topic);
    }
    assert items[..|items|] == items;
  }

  /** `for i, keyword := range keywords { keywordsCopy[i] = {PickID: pickIDs[i], ...} }`, panicking past the ids. */
  method CopyKeywords(found: seq<Keyword>, ids: seq<Id>, u: Id) returns (r: Option<seq<Keyword>>)
    ensures r == KeywordCopies(found, ids, u)
  {
    var rows: seq<Keyword> := [];
    for i := 0 to |found|
      invariant |rows| == i && i <= |ids|
      invariant forall j :: 0 <= j < i ==> rows[j] == Keyword(ids[j], found[j].keyword, u)
    {
      if i >= |ids| {
        return None;
      }
      rows := rows + [Keyword(ids[i], found[i].keyword, u)];
    }
    assert rows == KeywordCopies(found, ids, u).value;
    return Some(rows);
  }

  /**
   * What `SaveBook` leaves in the tables. An unknown user or book changes
   * nothing; a book with no pick fails the bulk insert after the book's id
   * was drawn; more keywords found than picks panics after every id was
   * drawn; otherwise the copy is in place.
   */
  ghost predicate BookSaved(before: Snapshot, after: Snapshot, user: Option<User>, source: Option<Book>, now: Time, draw: nat,
                            r: Result<BookResponse, Error>)
  {
    if user.None? || source.None? then r == Failure(RecordNotFound) && after == before
    else
      var u := user.value.id;
      var src := source.value;
      if |PicksOf(before.picks, src.id)| == 0 then r == Failure(EmptySlice) && after == before.(nextId := before.nextId + 1)
      else CopySaved(before, after, u, src, now, draw, r)
  }

  /**
   * The tables after steps 1 to 5 of `SaveBook`: the new book of user `u`
   * (id and guid `before.nextId`) with the title and author of `src`, copies
   * of `src`'s picks, `src`'s topics inserted for `u` unless present, and a
   * link from the new book to each of them; one id drawn per row attempted.
   */
  function CopiedState(before: Snapshot, u: Id, src: Book, now: Time): Snapshot
  {
    CopyOf(before, u, src, now, CopiedPicks(PicksOf(before.picks, src.id), u, before.nextId, before.nextId + 1),
           TopicsOfBook(before.topics, before.bookTopics, src.id))
  }

  /** `CopyOf` given the source's picks and topics is `CopiedState`. */
  lemma CopyOfSource(before: Snapshot, u: Id, src: Book, now: Time, copies: seq<Pick>, items: seq<TopicResponse>)
    requires copies == CopiedPicks(PicksOf(before.picks, src.id), u, before.nextId, before.nextId + 1)
    requires items == TopicsOfBook(before.topics, before.bookTopics, src.id)
    ensures CopyOf(before, u, src, now, copies, items) == CopiedState(before, u, src, now)
  {
  }

  /** `CopiedState` with the copied picks `copies` and the source's topics `items` given. */
  function CopyOf(before: Snapshot, u: Id, src: Book, now: Time, copies: seq<Pick>, items: seq<TopicResponse>): Snapshot
  {
    var id0 := before.nextId;
    var topics := InsertAllOrNothing(before.topics, id0 + 1 + |copies|, u, items);
    before.(books := before.books + [Book(id0, id0, Some(u), src.title, src.author, now, now)],
            picks := before.picks + copies,
            topics := topics,
            bookTopics := LinkAllByName(before.bookTopics, topics, id0, u, items),
            nextId := id0 + 1 + |copies| + |items|)
  }

  /**
   * `SaveBook`'s response for the new book `b` in the tables `s`: its fields,
   * the number of its latest picks (at most three) as its pick count, a
   * preview, its topics and those latest picks.
   */
  function SavedResponse(s: Snapshot, b: Book, draw: nat): BookResponse
  {
    var latest := Map(LatestPicks(s.picks, b.id, 3), PickResponse);
    BookResponse(b.guid, b.title, b.author, b.updatedAt, b.createdAt, |latest|,
                 Preview(PicksOf(s.picks, b.id), draw), TopicsOfBook(s.topics, s.bookTopics, b.id), latest)
  }

  /** `SaveCopy`'s steps, each stated by its own method, add up to `CopySaved` when the keywords are copied... */
  lemma CopySavedDone(before: Snapshot, mid: Snapshot, after: Snapshot, u: Id, src: Book, now: Time, draw: nat,
                      copies: seq<Pick>, response: BookResponse)
    requires mid == CopiedState(before, u, src, now)
    requires copies == CopiedPicks(PicksOf(before.picks, src.id), u, before.nextId, before.nextId + 1)
    requires response == SavedResponse(mid, mid.books[|before.books|], draw)
    requires var copied := KeywordCopies(KeywordsOf(mid.keywords, IdsOf(copies)), IdsOf(copies), u);
             copied.Some? && after == mid.(keywords := mid.keywords + copied.value)
    ensures CopySaved(before, after, u, src, now, draw, Success(response))
  {
    CopiedStateCopies(before, u, src, now, copies);
  }

  /** The picks `CopiedState` appends are the copies. */
  lemma CopiedStateCopies(before: Snapshot, u: Id, src: Book, now: Time, copies: seq<Pick>)
    requires copies == CopiedPicks(PicksOf(before.picks, src.id), u, before.nextId, before.nextId + 1)
    ensures CopiedState(before, u, src, now).picks[|before.picks|..] == copies
  {
    var items := TopicsOfBook(before.topics, before.bookTopics, src.id);
    CopyOfSource(before, u, src, now, copies, items);
    var s := CopyOf(before, u, src, now, copies, items);
    assert s.picks == before.picks + copies;
    assert s.picks[|before.picks|..] == copies;
  }

  /** ... and when they are not, for want of ids to give them. */
  lemma CopySavedPanic(before: Snapshot, mid: Snapshot, after: Snapshot, u: Id, src: Book, now: Time, draw: nat,
                       copies: seq<Pick>)
    requires mid == CopiedState(before, u, src, now)
    requires copies == CopiedPicks(PicksOf(before.picks, src.id), u, before.nextId, before.nextId + 1)
    requires KeywordCopies(KeywordsOf(mid.keywords, IdsOf(copies)), IdsOf(copies), u).None?
    requires after == mid.(books := before.books, picks := before.picks, topics := before.topics, bookTopics := before.bookTopics)
    ensures CopySaved(before, after, u, src, now, draw, Failure(Panic))
  {
    CopiedStateCopies(before, u, src, now, copies);
    assert after == before.(nextId := mid.nextId);
  }

  /**
   * `SaveBook`'s transaction for user `u` and a source book `src` that has
   * picks: the copy of `CopiedState`, then the keywords found for the new
   * picks given to them by position, or a panic, rolled back but for the
   * ids drawn, when there are more keywords than new picks.
   */
  ghost predicate CopySaved(before: Snapshot, after: Snapshot, u: Id, src: Book, now: Time, draw: nat, r: Result<BookResponse, Error>)
  {
    var mid := CopiedState(before, u, src, now);
    var ids := IdsOf(mid.picks[|before.picks|..]);
    var copied := KeywordCopies(KeywordsOf(before.keywords, ids), ids, u);
    if copied.None? then r == Failure(Panic) && after == before.(nextId := mid.nextId)
    else
      && after == mid.(keywords := before.keywords + copied.value)
      && r == Success(SavedResponse(mid, mid.books[|before.books|], draw))
  }

}
