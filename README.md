# feynman-backend core, modelled in Dafny

This project models the core of feynman-backend. The backend keeps a reader's
books, the picks (quotes and notes) taken from them, the topics that tag the
books and the search keywords generated for each pick. The model covers:

- **The book service** (`internal/book/service.go`).
  - All its operations run over one in-memory database, the class `Tables.Store`.
  - The store holds the books, picks, topics, book-topic links, search keywords, users, sessions and the topic colour palette.
  - It also holds an outbox standing for the pick-keywords queue.
  - One id sequence supplies both row ids and guids.
  - Reads are functions of the tables.
  - Writes are methods that change the tables statement by statement, each proved equal to a specification function or stated field by field.
  - The central invariant is that a book's pick indices are exactly `0..n-1`. Pick insertion and deletion keep it; the `PickOrder` module proves this.
  - Topic tagging has two conflict policies, both in `Tagging`: insert-or-nothing, and upsert-then-garbage-collect.
  - The read queries (`Queries`, `Rows`) are filters, stable sorts and pages over the tables.
- **The edit-distance gate** (`internal/utility/levenshtein.go`).
  - A matrix method is proved to compute the recursive definition of the Levenshtein distance.
  - The 20% change test is stated in exact integer arithmetic.
- **The copy of the sample books to a new user** (`internal/utility/bookSamples.go`).
  - The `Samples` module holds its specification functions.
  - `SampleFacts` holds the lemmas about them.
  - `SampleCopy` holds the methods.
- **The user and session services**: signing in, sessions, the profile update and the profile health check. The conversions of the `domain` package are modelled too.
- **The JWT-level auth service, controller and provider dispatch.**
  - The JWT library is a parameter: a `sign`/`decode` pair that is sound when decoding a signed token gives back its claims.
  - Expiry is checked as the library checks it.
- **The custom API Gateway authorizer's decision.**
- **`convertParams`, the Postgres DSN builder, the prompt builder and `extractKeys`.**

Conventions:

- Times are whole seconds since the Unix epoch, taken as a parameter `now`.
- Strings are sequences of characters, each standing for one byte of Go's UTF-8 text, so the edit distance compares bytes as the Go code does.
- A Go panic is the error `Panic`.
- A gorm error the code handles is a value of `Domain.Error`.
- Everything the code gets from outside is a parameter:
  - the language model's generated topics, the colour draw and the random preview;
  - whether a queue send succeeded;
  - the Google Books author lookup;
  - the identity provider's token check.

## Model

| member | source | states |
|---|---|---|
| Books.BookService.GetBookByGuid | internal/book/service.go:82-90 | the book returned has the guid; a failure is record-not-found, only when no book has it |
| Books.BookService.GetCompleteBookByGuid | internal/book/service.go:92-144 | any owner's book with the guid, as its response (fields, pick count, preview, topics, three latest picks); record-not-found exactly when no book has the guid |
| Books.BookService.GetShortBooksList | internal/book/service.go:396-418 | fails iff the user is unknown; otherwise element i is the short form of element i of the user's title-filtered, newest-first page |
| Books.BookService.GetBooks | internal/book/service.go:424-497 | fails iff the user is unknown; otherwise one full response per book of the homepage list, in list order |
| Books.BookService.GetPicksByBook | internal/book/service.go:503-555 | a book id `uuid.Parse` refuses (the canonical, braced, URN and bare-hex forms are read) and an unknown book are the errors; every pick returned belongs to the book and the page is ordered by index in the requested direction; a panic only for an until-pick with limit 0; without offset and with a covering limit every pick is returned |
| Books.BookService.GetUserBooksTopics | internal/book/service.go:559-589 | fails iff the user is unknown; otherwise the topic list whose head is "all" with the user's book count |
| Books.BookService.DeleteBook | internal/book/service.go:146-150 | never an error; the user's book with the guid is gone with its picks and links, and no other row changes |
| Books.BookService.DeleteBookPick | internal/book/service.go:152-191 | isLastPick iff the book has exactly one pick, and then the whole book is deleted whatever pick was named; otherwise the named pick is removed and later picks move down, a contiguous book staying contiguous and one shorter; a text Postgres's uuid input refuses (braces, a hyphen after any four digits and either case are read) or a missing pick change nothing |
| Books.BookService.CreateBookPick | internal/book/service.go:193-394 | unknown user panics and changes nothing; nil book id creates a tagged new book (`NewBookCreated`); otherwise the user's book gets the pick at the append index after shifting, is touched, and a keyword message with pick id 0 is queued; unknown book or failed send change nothing |
| Books.BookService.CreateInNewBook | internal/book/service.go:204-316 | the new-book branch reaches `NewBookCreated`: the book and its pick at index 0, the queued message with the pick's id, and the tagging |
| Books.BookService.TagNewBook | internal/book/service.go:264-289 | each label inserted for the user unless present, one id drawn per label, then a link to each of the user's topics named by a label |
| Books.BookService.AddToBook | internal/book/service.go:317-384 | the existing-book branch: message before the pick (pick id 0), shift up at the index, the pick inserted, the book touched |
| Books.BookService.EditBookPick | internal/book/service.go:676-725 | a text Postgres's uuid input refuses is invalid-uuid and a missing pick record-not-found, both changing nothing; a keyword message with the new text is queued iff the text changed by at least 20%; a failed send fails the edit; then only the given fields are written to every row with the pick's guid |
| Books.BookService.AddPickKeywords | internal/book/service.go:728-753 | an unknown user is record-not-found and an empty list gorm's empty-slice error, neither writing anything; otherwise one keyword row per keyword, in order, is appended |
| Books.BookService.SemanticSearch | internal/book/service.go:755-794 | an unknown user is record-not-found and a negative limit or offset is refused; otherwise the result is the specification `Queries.SemanticSearch`, at most one row per pick |
| Books.BookService.SearchPickInBook | internal/book/service.go:796-819 | a book id `uuid.Parse` refuses, an unknown book and a negative limit or offset are the only errors; otherwise the result is the book's `SearchInBook` page |
| Books.BookService.SaveBook | internal/book/service.go:821-950 | unknown user or book change nothing; otherwise the tables end as `BookSaved` says (copy, topics, links, keyword copies or panic) and the response is that of the new book |
| Books.BookService.SaveCopy | internal/book/service.go:831-944 | the transaction for a known user and source book reaches `CopySaved` |
| Books.BookService.InsertBookWithPick | internal/book/service.go:221-235 | the book row then the pick row appended, each with the next id |
| Books.BookService.Send | internal/book/service.go:348-357 | a sent message is appended to the outbox, and nothing else changes |
| Books.BookService.CopyPickKeywords | internal/book/service.go:922-944 | the found keywords given to the new picks by position, or nothing written when there are more keywords than picks |
| Books.BookService.CopyRows | internal/book/service.go:835-891 | steps 1-5 of the save reach `CopiedState` and return the copied picks |
| Books.BookService.CopyBookAndPicks | internal/book/service.go:835-865 | the new book and the copies of the source's picks, one id each |
| Books.BookService.CopyTopics | internal/book/service.go:870-891 | each source topic inserted for the user unless present, then the copy linked to the user's row of each name |
| Books.BookService.EditBook | internal/book/service.go:593-673 | the tables end as `BookEdited` says: a book id Postgres's uuid input refuses matches no book; title/author only when non-empty, topics relinked and garbage-collected, picks re-indexed by guid |
| Books.BookService.ApplyEdits | internal/book/service.go:604-668 | the statements of the edit reach `EditApplied` |
| Books.BookService.EditFields | internal/book/service.go:604-618 | title and author each written only when non-empty, only on the caller's book |
| Books.BookService.RetagBook | internal/book/service.go:620-639 | the book unlinked, the items upserted and relinked, the user's unreferenced topics deleted |
| Books.AppendIndexOfContiguous | internal/book/service.go:326-337 | appending to a contiguous book with picks takes index = the pick count (max + 1) |
| Books.AppendToEmptyBookSkipsZero | internal/book/service.go:326-337 | the first pick appended to an empty book gets index 1 and the book is then not contiguous |
| Books.Labels | internal/book/service.go:254-266 | label i paired with drawn colour i |
| Books.Touched | internal/book/service.go:377 | only the book's updated_at changes |
| Books.TopicItems | internal/book/service.go:627-634 | the body's topics as items, in order |
| Books.Retitled | internal/book/service.go:604-611 | only the caller's book with the guid gets the title and the new updated_at |
| Books.Reauthored | internal/book/service.go:613-618 | only the caller's book with the guid gets the author and the new updated_at |
| Books.EditedBooksTouchOnlyTheBook | internal/book/service.go:604-618 | the edit changes only the caller's book, and only the non-empty fields given |
| Books.EditedPickPos | internal/book/service.go:697-702 | the pick found is a row of the named book whose guid is the pick id as Postgres reads it; None with both ids read and the book present means no such row |
| Books.PatchedWhere | internal/book/service.go:677-689 | exactly the rows with the guid are patched; all others stay |
| Books.EmptyTextStillEnqueues | internal/book/service.go:705-718 | omitting the text on a pick with text counts as a change (so a message is queued) while the pick keeps its text |
| Books.KeywordRows | internal/book/service.go:737-744 | one row per keyword, in order, for the pick and user |
| Books.CopiedPicks | internal/book/service.go:852-862 | each copy keeps content, text and index, drops the title, belongs to the new book and the caller |
| Books.IdsOf | internal/book/service.go:922-926 | the copied picks' ids, in order |
| Books.KeywordsOf | internal/book/service.go:928-930 | exactly the keywords of the given pick ids |
| Books.KeywordCopies | internal/book/service.go:931-944 | keyword i goes to pick i by position; more keywords than picks is an out-of-range panic (None) |
| Books.InsertTopicsOrNothing | internal/book/service.go:265-271 | the loop of DO-NOTHING inserts equals `InsertAllOrNothing` |
| Books.LinkTopicIds | internal/book/service.go:283-289 | the loop of link inserts equals `LinkIds` |
| Books.BookPicksPage | internal/book/service.go:519-549 | the page once the book is found: ordered page, or the until-pick page sized by `UpperLimit` |
| Books.BookResponses | internal/book/service.go:462-491 | the loop builds one response per listed book, in order |
| Books.PicksUntil | internal/book/service.go:527-547 | the until-pick branch: an until-pick id Postgres's uuid input refuses is an error, one naming no pick of the book record-not-found, limit 0 panics, otherwise the rounded-up page |
| Books.PageResponses | internal/book/service.go:549-555 | each response is a pick of the book, in page order |
| Books.NewBookCreatedTagged | internal/book/service.go:264-316 | the success case of a new book: tagging from the state before it, response read after it |
| Books.TagsEachLabel | internal/book/service.go:264-289 | label i names a topic row of the user after the inserts (old row or new one with the label's colour), and the book is linked to it |
| Books.NewBookTagged | internal/book/service.go:254-289 | after a new book: every label names a user topic (kept if it existed, else with its drawn colour); no earlier topic row changes; the book links to each |
| Books.NewBookCreatedTopics | internal/book/service.go:264-289 | the topic tables after a successful new book are those of the tagging |
| Books.UpsertAndLink | internal/book/service.go:627-634 | the loop of upserts and links equals `UpsertAll` and `EditLinks` |
| Books.WithIndexFor | internal/book/service.go:664-668 | every row with the guid gets the index; no other row changes |
| Books.ReindexPicks | internal/book/service.go:641-668 | the nested loop and updates equal `PickOrder.Reindexed` |
| Books.BuildKeywordRows | internal/book/service.go:737-744 | the loop builds `KeywordRows` |
| Books.CopyPicks | internal/book/service.go:852-862 | the loop builds `CopiedPicks` |
| Books.LinkTopicsByName | internal/book/service.go:886-891 | the loop of link-by-name inserts equals `LinkAllByName` |
| Books.CopyKeywords | internal/book/service.go:931-944 | the loop builds `KeywordCopies`, panicking past the ids |
| Books.CopyOfSource | internal/book/service.go:835-891 | the copy built from the source's picks and topics is `CopiedState` |
| Books.CopySavedDone | internal/book/service.go:835-944 | the save's steps add up to `CopySaved` when the keywords are copied |
| Books.CopiedStateCopies | internal/book/service.go:852-865 | the picks the save appends are exactly the copies |
| Books.CopySavedPanic | internal/book/service.go:931-944 | with more keywords than new picks, the save is the panic of `CopySaved` |
| PickOrder.PicksOf | internal/book/service.go:165 | exactly the picks of the book, in table order |
| PickOrder.ShiftUp | internal/book/service.go:362 | picks of the book at or above k move up by one; every other row is unchanged |
| PickOrder.ShiftDown | internal/book/service.go:184 | picks of the book above k move down by one; every other row is unchanged |
| PickOrder.RemoveAt | internal/book/service.go:176-181 | the table without the one row at the position |
| PickOrder.CountInPositive | internal/book/service.go:165-168 | the book has a pick iff its count is positive |
| PickOrder.MaxIndexIsGreatest | internal/book/service.go:326-337 | the plucked maximum is the greatest index of the book's picks, None when it has none |
| PickOrder.MaxIndexOfContiguous | internal/book/service.go:326-337 | in a contiguous book the maximum is the count minus one |
| PickOrder.InsertKeepsContiguous | internal/book/service.go:326-364 | shifting up at k ≤ n and inserting at k turns indices 0..n-1 into 0..n |
| PickOrder.DeleteKeepsContiguous | internal/book/service.go:176-184 | removing index d and shifting down turns 0..n-1 into 0..n-2 |
| PickOrder.InsertPastEndBreaksContiguity | internal/book/service.go:326-364 | an unchecked index beyond the count always breaks contiguity |
| PickOrder.ShiftsTouchOnlyTheBook | internal/book/service.go:184 | shifting never changes another book's picks |
| PickOrder.LastOrder | internal/book/service.go:656-662 | the last order naming the guid, or None when none does |
| PickOrder.Reindexed | internal/book/service.go:641-668 | every row whose guid some order names takes the last such order's index, whatever its book; all else unchanged |
| PickOrder.ReindexCanBreakContiguity | internal/book/service.go:641-668 | a reorder can leave two picks at the same index |
| Queries.ShortListMeans | internal/book/service.go:404-415 | only the user's books whose title contains the text ignoring case, newest first; without offset and limit all of them |
| Queries.TopicFilter | internal/book/service.go:444-447 | no filter when the parameter is empty or contains "all"; otherwise its comma-separated names |
| Queries.AllInsideATopicNameDisablesTheFilter | internal/book/service.go:444 | a parameter like "football" disables the filter |
| Queries.HomeBooksMeans | internal/book/service.go:424-453 | only the user's tagged books (with a named topic when filtering), newest first; all of them without paging |
| Queries.Preview | internal/book/service.go:120 | the preview is a pick of the book chosen by the draw, or the zero pick when it has none |
| Queries.LatestPicksMeans | internal/book/service.go:117 | at most three of the book's own picks, in decreasing index order |
| Queries.BookResponseOf | internal/book/service.go:100-144 | the response carries the book's fields, its pick count, its topics and latest picks |
| Queries.GoRem | internal/book/service.go:539 | Go's truncated remainder: sign of the dividend, magnitude below the divisor |
| Queries.UpperLimit | internal/book/service.go:539 | a zero limit divides by zero (None); otherwise the value of `c + (limit - c % limit) % limit` |
| Queries.UpperLimitRoundsUp | internal/book/service.go:539 | for a positive limit the page size is the least multiple of the limit that is at least c |
| Queries.RoundUp | internal/book/service.go:539 | `c + (m - c % m) % m` is a multiple of m, at least c, and less than c + m |
| Queries.OrderedPageMeans | internal/book/service.go:519-549 | a page holds only the book's picks, in the requested index order |
| Queries.NewerComeFirst | internal/book/service.go:527-547 | in a newest-first list a pick newer than k is among the first `NewerThan` |
| Queries.UntilPageReachesNewer | internal/book/service.go:527-547 | with a positive limit, newest first, the page reaches every pick newer than the until-pick |
| Queries.UntilNewestPickGivesNothing | internal/book/service.go:527-547 | with nothing newer than the until-pick the page is empty |
| Queries.BookWithId | internal/book/service.go:770-790 | the first book with the id, or None when none has it |
| Queries.SemanticRows | internal/book/service.go:770-790 | each row is a matching pick joined with its book |
| Queries.SemanticSearchIsScoped | internal/book/service.go:770-790 | a pick is found only through the user: its own text, the user's keyword or the user's book |
| Queries.SemanticSearchIsComplete | internal/book/service.go:770-790 | with offset 0 and a covering limit every matching pick is found |
| Queries.SearchInBookMeans | internal/book/service.go:811-816 | every result is a pick of the book whose text or title contains the query |
| Queries.SearchInBookIsComplete | internal/book/service.go:811-816 | with offset 0 and a limit no smaller than the number of matches, every pick of the book whose text or title contains the query is in the result |
| Tagging.TopicPos | internal/book/service.go:629-633 | the first row of the user with the name, and no earlier one; None iff none |
| Tagging.UpsertTopic | internal/book/service.go:629 | an upsert never removes a row |
| Tagging.UpsertTopicFinds | internal/book/service.go:629 | after an upsert the name has a row with the item's colour (same id if it existed); other names and users unaffected |
| Tagging.UpsertTopicKeepsId | internal/book/service.go:629 | an upsert keeps an existing name's row id |
| Tagging.InsertAllKeepsRows | internal/book/service.go:265-271 | DO-NOTHING inserts only append: no existing row changes colour |
| Tagging.InsertAllOrNothingFinds | internal/book/service.go:265-271 | an existing name keeps its row; a new name gets one row with its first item's id and colour; other users unaffected |
| Tagging.UpsertAllFinds | internal/book/service.go:627-634 | after the upserts each name has a row with its last item's colour; others unaffected |
| Tagging.LinkIdsLinksEach | internal/book/service.go:283-289 | old links first, then link i to id i |
| Tagging.LinkAllByNameLinksEach | internal/book/service.go:886-891 | when every name has a row, one link per item to that row, in order |
| Tagging.TopicIdsNamedMembers | internal/book/service.go:276 | exactly the ids of the user's rows named in the list |
| Tagging.GcTopics | internal/book/service.go:637-638 | a row survives iff it is another user's or some link references it |
| Tagging.UnlinkBook | internal/book/service.go:625 | a link survives iff it is of another book |
| Tagging.TopicsOfBookMembers | internal/book/service.go:109-114 | the join holds exactly the topics some link of the book names |
| Tagging.CountBooksOf | internal/book/service.go:579 | zero iff the user owns no book, at most the table size |
| Tagging.Tagged | internal/book/service.go:569-576 | each topic row paired with the book id |
| Tagging.TopicBookRowsMembers | internal/book/service.go:569-576 | a row pairs a topic with a book of the user through one of its links, and every such pair is a row |
| Tagging.GroupKeysOnce | internal/book/service.go:569-576 | each group key of the rows exactly once |
| Tagging.Counted | internal/book/service.go:569-576 | entry i is group i with its number of distinct books |
| Tagging.UserBooksTopics | internal/book/service.go:559-589 | the head entry is "all", no colour, counting the user's books |
| Tagging.UserBooksTopicsShape | internal/book/service.go:569-586 | the list is the "all" entry then the counted groups in name order |
| Tagging.UserBooksTopicsSorted | internal/book/service.go:569-576 | after "all" the list is ordered by topic name |
| Tagging.UserBooksTopicsDistinct | internal/book/service.go:569-576 | after "all" no (topic, colour) appears twice |
| Tagging.UserBooksTopicsCovers | internal/book/service.go:569-576 | a (topic, colour) is listed iff it tags a book of the user, with the number of distinct such books |
| Tagging.UpsertAllKeepsIds | internal/book/service.go:627-634 | later upserts never move a found name to another id |
| Tagging.EditLinksLinksEach | internal/book/service.go:627-634 | one link per item, in order, to the row that finally carries its name |
| Tagging.UpsertAllOtherUsers | internal/book/service.go:627-634 | another user's rows are exactly as before |
| Tagging.EditTopicsMeans | internal/book/service.go:620-639 | the book's old links replaced by one per item; each name's row has its last item's colour; every unreferenced topic of the user deleted; other users untouched |
| Rows.InsertBy | internal/book/service.go:410 | one element added, the rest kept (as a multiset) |
| Rows.SortBy | internal/book/service.go:410 | ORDER BY is a permutation of the rows |
| Rows.SortBySorted | internal/book/service.go:410 | the sorted rows are ordered by a total preorder |
| Rows.Take | internal/book/service.go:117 | LIMIT n: the first min(n, length) rows |
| Rows.Page | internal/book/service.go:412-415 | gorm's Offset/Limit, negative meaning none: the window after the skipped rows |
| Rows.RawPage | internal/book/service.go:815 | a negative raw LIMIT/OFFSET is refused; otherwise the window at the offset |
| Rows.Filter | internal/book/service.go:404-410 | WHERE: exactly the rows satisfying the predicate |
| Rows.FirstWhere | internal/book/service.go:85 | First(): the first matching position, and none before it |
| Rows.First | internal/book/service.go:85 | First(): a matching row, None iff none matches |
| Rows.Map | internal/book/service.go:294 | a SELECT of one function of each row, in order |
| Rows.PageWindow | internal/book/service.go:412-415 | row i of the page is row skip + i of the list |
| Rows.PageOfSorted | internal/book/service.go:412-415 | a page of a sorted list is sorted |
| Rows.PageOfAll | internal/book/service.go:412-415 | with no offset and no limit or a covering one, the page is the whole list |
| Tables.BooksWithout | internal/book/service.go:148 | a book survives iff its id is not deleted (with ON DELETE CASCADE on picks and links) |
| Tables.PicksWithout | internal/book/service.go:148 | a pick survives iff its book is not deleted |
| Tables.LinksWithout | internal/book/service.go:148 | a link survives iff its book is not deleted |
| Levenshtein.LevenshteinDistance | internal/utility/levenshtein.go:14-54 | the matrix algorithm returns the recursive edit distance `Dist` |
| Levenshtein.FillRow | internal/utility/levenshtein.go:39-51 | row i of the matrix holds the distances of the prefixes; other rows unchanged |
| Levenshtein.DistPrefixStep | internal/utility/levenshtein.go:39-51 | the recurrence of the inner loop holds on prefixes |
| Levenshtein.DistSelf | internal/utility/levenshtein.go:7-12 | d(a, a) = 0 |
| Levenshtein.DistBounds | internal/utility/levenshtein.go:14-54 | length difference ≤ d(a, b) ≤ longer length (so d(a, "") = len a) |
| Levenshtein.DistZeroIff | internal/utility/levenshtein.go:14-54 | d(a, b) = 0 iff a = b |
| Levenshtein.DistSymmetric | internal/utility/levenshtein.go:14-54 | d(a, b) = d(b, a) |
| Levenshtein.AtLeast20PercentChanged | internal/utility/levenshtein.go:57-68 | true iff 5·d ≥ the longer length and the strings are not both empty (0/0 is NaN, false) |
| Levenshtein.UnchangedIsNotChanged | internal/utility/levenshtein.go:57-68 | an unchanged text never counts as changed |
| Levenshtein.ShortTextAnyEditChanges | internal/utility/levenshtein.go:57-68 | any edit of texts shorter than five counts as changed |
| Levenshtein.LengthChangeCounts | internal/utility/levenshtein.go:57-68 | a length change of a fifth of the longer text counts as changed |
| Levenshtein.FromOrToEmptyChanges | internal/utility/levenshtein.go:57-68 | filling in or clearing a text counts as changed |
| Levenshtein.ChangedSymmetric | internal/utility/levenshtein.go:57-68 | the test does not depend on which text is the old one |
| Samples.SampleBooks | internal/utility/bookSamples.go:16 | exactly the books with no owner |
| Samples.SampleCopies | internal/utility/bookSamples.go:38-49 | each copy keeps content, text, title and index, in the new book, owned by the user |
| SampleCopy.CopyBookSamplesToUser | internal/utility/bookSamples.go:9-110 | the tables end as `CopySamples` says, and the error is nil unless a turn panics |
| SampleCopy.SampleRows | internal/utility/bookSamples.go:22-106 | one turn of the loop equals `CopySample` |
| SampleCopy.CopyPickedRows | internal/utility/bookSamples.go:51-106 | steps 1.2 to 1.6 equal `CopyPicked` |
| SampleCopy.CopyKeywordRows | internal/utility/bookSamples.go:82-106 | the keyword steps equal `CopiedKeywords` |
| SampleCopy.CopySamplePicks | internal/utility/bookSamples.go:38-49 | the loop builds `SampleCopies` |
| SampleCopy.WriteRows | internal/utility/bookSamples.go:30-105 | the store holds exactly the turn's tables |
| SampleFacts.CopySampleGoesOn | internal/utility/bookSamples.go:29-55 | a turn that does not break has picks and is the book copy followed by the picked steps |
| SampleFacts.FreshIdsFindNoKeywords | internal/utility/bookSamples.go:83-106 | keywords are looked up by fresh pick ids, so a turn copies none and never panics |
| SampleFacts.CopySampleAddsBook | internal/utility/bookSamples.go:22-55 | a turn adds exactly one book copy with the same title and author, only picks of that copy, and breaks iff the sample has no pick |
| SampleFacts.CopySamplesNeverPanic | internal/utility/bookSamples.go:83-109 | a whole run never panics and copies no keyword |
| SampleFacts.CopySamplesCopiesInOrder | internal/utility/bookSamples.go:22-55 | one copy per sample, in order, up to the first sample without picks |
| SampleFacts.CopySamplesCopiesAll | internal/utility/bookSamples.go:22-107 | when every sample has a pick, every sample is copied |
| SampleFacts.SampleTopicsCopied | internal/utility/bookSamples.go:57-80 | each sample topic names a user row (kept if present, else new) and the copy is linked to it |
| SampleFacts.PickedTopicsCopied | internal/utility/bookSamples.go:64-80 | the same for the picked steps alone |
| Domain.ShortBookFromBook | internal/domain/book.go:79-84 | exactly the guid and the title |
| Domain.ShortBooksFromBookList | internal/domain/book.go:87-94 | same length, element i is the short form of book i |
| Domain.NewUserSettings | internal/domain/user.go:49-57 | dark mode and notifications on, mode "all", empty languages |
| Domain.UserDtoFromModel | internal/domain/user.go:76-87 | the public fields copied, the given session id, premium iff a receipt is stored |
| Domain.NewGoogleThirdPartyUser | internal/domain/user.go:107-111 | provider "google", all else empty |
| Domain.NewAppleThirdPartyUser | internal/domain/user.go:114-118 | provider "apple", all else empty |
| Users.UnsavedUser | internal/user/service.go:57-69 | the user handed back after a failed insert: the provider's identity and default settings, id and guid zero, created, and not active, since `is_active` (internal/domain/user.go:27) is a column default read back only on success |
| Users.UserByEmail | internal/user/service.go:56 | a user with the email, None iff none has it |
| Users.WithDevice | internal/user/service.go:122-130 | only the session with the guid gets the device id, token and updated_at |
| Users.WithProfile | internal/user/service.go:143-162 | the profile update leaves the number of users as it was |
| Users.UserService.GetUserByGuid | internal/user/service.go:39-45 | the user with the guid, record-not-found iff none |
| Users.UserService.CreateUserIfNotExists | internal/user/service.go:48-139 | the tables and results are those of `SignIn` |
| Users.UserService.CreateUser | internal/user/service.go:56-96 | the unknown-email branch reaches `NewUser` |
| Users.UserService.CopySamplesAndOpenSession | internal/user/service.go:72-95 | the copy then the session reach `CopyAndOpenSession` |
| Users.UserService.SignInKnownUser | internal/user/service.go:98-135 | the known-email branch reaches `SignInAgain` |
| Users.UserService.RollBack | internal/user/service.go:55-136 | the transaction's tables put back; users, sessions and ids stay |
| Users.UserService.UpdateUserProfile | internal/user/service.go:143-162 | no error; settings and notification flag always written, receipt only when given, only the user with the guid |
| Users.UserService.CheckProfileHealth | internal/user/service.go:165-229 | fails iff the user is unknown (record-not-found); premium always; healthy iff the user is active |
| Users.SignInReturnsTheUser | internal/user/service.go:56-96 | on success the user has the email and is flagged created iff it was new |
| Users.SignInFailures | internal/user/service.go:55-136 | a sign-in fails only for a new email: unique violation iff the external id is taken, panic iff the copy panics |
| Users.SignInNeverPanics | internal/user/service.go:72-77 | with keywords older than the id sequence the copy never panics |
| Users.SignInKeepsUsersUnique | internal/user/service.go:56-70 | emails and external ids stay unique |
| Users.SignInSessionIsActive | internal/user/service.go:81-133 | the session id returned is the user's first active session |
| Users.SecondSignInReusesSession | internal/user/service.go:98-133 | signing in again inserts nobody and returns the same session |
| Users.SignInFindsTheUser | internal/user/service.go:56-70 | after a sign-in the email finds the returned user |
| Users.KnownUserSignIn | internal/user/service.go:98-133 | a known email signs in without error, adds no user and reuses the active session |
| Users.NewSessionIsActive | internal/user/service.go:56-93 | the session opened for a new user is its first active session, with the id returned |
| Users.NewUserSignIn | internal/user/service.go:56-93 | a new email with a free external id appends the user, returns it as created, and on success appends one session with the id returned; the only failure is a panic |
| Users.SignInIsNewUser | internal/user/service.go:56-93 | a new email with a free external id inserts the user row, then copies the samples and opens the session |
| Users.NewUserPanics | internal/user/service.go:56-93 | a new user's sign-in fails exactly when the copy of the sample books panics |
| Users.CopyPanics | internal/user/service.go:72-93 | the copy and the session fail exactly when the copy panics, and otherwise pass |
| Users.CopyKeepsUser | internal/user/service.go:72-93 | the copy and the session keep the users and the user returned, and either pass with one session appended or panic |
| Users.AppendedSessionIsFirst | internal/user/service.go:104-115 | an appended session is active for a user without one, and does not displace an existing one |
| Users.UpdatedSessionStaysFirst | internal/user/service.go:122-130 | updating the device keeps the active session first |
| Sessions.WithPatch | internal/session/service.go:38-59 | only the user's session with the guid: updated_at set, token written only when given, other fields kept |
| Sessions.WithNotifications | internal/session/service.go:50 | only the user gets notifications on and updated_at |
| Sessions.WithExpiry | internal/session/service.go:73 | only the user's session with the guid gets expired_at and updated_at |
| Sessions.SessionService.UpdateUserSession | internal/session/service.go:32-63 | unknown user is record-not-found; a session id Postgres's uuid input refuses fails and rolls back; otherwise the session is patched and notifications set iff a token is given |
| Sessions.SessionService.LogoutSession | internal/session/service.go:65-78 | unknown user is record-not-found and changes nothing; otherwise the session is expired now |
| Sessions.PatchKeepsActiveSession | internal/session/service.go:57 | a patch never changes which session is active |
| Sessions.PatchIdempotent | internal/session/service.go:57 | patching twice is patching once |
| Sessions.LoggedOutSessionIsNotReused | internal/session/service.go:73 | a logged-out session is no longer the active one a sign-in reuses |
| Uuids.Format | internal/book/service.go:507 | the text is 36 characters long |
| Uuids.Parse | internal/auth/service.go:112 | the 36-character case of uuid.Parse: a text read is a 128-bit UUID |
| Uuids.GoParse | internal/auth/service.go:112 | a text read by uuid.Parse is a 128-bit UUID |
| Uuids.ParseFormat | internal/book/service.go:507 | parsing a printed UUID gives it back |
| Uuids.GoParseForms | internal/auth/service.go:112 | the canonical, braced, URN and bare forms all read back |
| Uuids.GoParseBraced | internal/auth/service.go:112 | a braced UUID reads back, the braces unchecked |
| Uuids.GoParseUrn | internal/auth/service.go:112 | a UUID behind a URN prefix in any case reads back |
| Uuids.GoParseLengths | internal/auth/service.go:112 | every other length is rejected |
| Uuids.PgParse | internal/book/service.go:697 | a text Postgres's uuid input reads, bound to `guid = ?`, is a 128-bit UUID |
| Uuids.PgParseFormat | internal/book/service.go:697 | the canonical text reads back |
| Uuids.PgParseBare | internal/session/service.go:57 | 32 hex digits without hyphens read back |
| Uuids.PgParseBraced | internal/session/service.go:57 | a braced canonical text reads back |
| Uuids.PgParseRefusesUrn | internal/book/service.go:605 | the URN form uuid.Parse reads is refused by Postgres |
| Uuids.FormatInjective | internal/book/service.go:507 | distinct UUIDs print differently |
| Calendar.NewYearThousandYearsOn | internal/auth/service.go:73 | AddDate(1000, 0, 0) on 2024-01-01 gives 3024-01-01 |
| Calendar.LeapDayThousandYearsOn | internal/auth/service.go:73 | 2000-02-29 plus a thousand years normalises to 3000-03-01, 3000 not being leap |
| Calendar.AddYears | internal/auth/service.go:73 | `AddDate(n, 0, 0)` keeps the time of day for every instant; the date itself is stated by `NewYearThousandYearsOn` and `LeapDayThousandYearsOn` |
| Jwt.ParseWithClaims | internal/auth/service.go:93-103 | a parse succeeds only with a good signature, unexpired exp and reached nbf |
| Jwt.ParseSigned | internal/auth/service.go:93-103 | a signed, unexpired token parses to its claims; an expired one does not |
| Text.Split | functions/CustomAuthorizerFun/main.go:44-45 | strings.Split gives at least one field |
| Text.SplitFieldsFree | functions/CustomAuthorizerFun/main.go:44-45 | no field of a split contains the separator |
| Text.JoinOfSplit | functions/CustomAuthorizerFun/main.go:44-45 | joining a split gives the string back |
| Text.SplitOfJoin | functions/CustomAuthorizerFun/main.go:44-45 | splitting a join of separator-free fields gives them back |
| Text.TrimPrefix | functions/CustomAuthorizerFun/main.go:42 | one leading prefix removed when present, else unchanged |
| Text.ContainsFoldMeans | internal/book/service.go:410 | ILIKE '%q%' holds iff some window matches ignoring ASCII case |
| Text.ParseInt64 | internal/utility/parsers.go:16 | ParseInt base 10, 64 bits: result in the int64 range; None for bad syntax |
| Text.ParseFormatInt | internal/utility/parsers.go:16 | every int64 printed in decimal parses back |
| Text.ParseRejectsOutOfRange | internal/utility/parsers.go:16 | out-of-range decimals are errors, not wrapped |
| AuthService.Wrap64 | internal/auth/service.go:63 | the int64 wrap-around of the duration product, identity within range |
| AuthService.TokenClaims | internal/auth/service.go:43-51 | sub is the user's guid, email, exp, iat, iss "panta.srvless-api" and the kind |
| AuthService.GenerateAccessToken | internal/auth/service.go:43-58 | an access-kind token of the user expiring at exp; a signing failure is an error |
| AuthService.GenerateToken | internal/auth/service.go:61-88 | the access token (kind access, expiry now + m minutes) and refresh token (kind refresh, a thousand years on), and the returned expiry |
| AuthService.RefreshAccessToken | internal/auth/service.go:91-135 | bad token or non-refresh kind is "invalid token"; bad sub "invalid token subject"; unknown user propagated; success returns the same refresh token and an access token signed for the stored user the `sub` names, expiring `jwtExpiresIn` minutes from now |
| AuthService.CreateUserIfNotExists | internal/auth/service.go:138-140 | exactly the user service's sign-in |
| AuthService.AccessExpiry | internal/auth/service.go:63 | the expiry lies within the range of a 64-bit nanosecond duration from now (about 292 years either way), whatever the configured minutes; `AccessExpiryInMinutes` gives the exact value without overflow |
| AuthService.RefreshExpiry | internal/auth/service.go:73 | the refresh token expires a thousand years on at the time of day it was issued |
| AuthService.AccessExpiryInMinutes | internal/auth/service.go:63 | without overflow the token lasts exactly m minutes |
| AuthService.DefaultAccessTokenLasts420Days | internal/auth/service.go:63 | the configured 604800 is read as minutes: 420 days |
| AuthService.OverlongLifetimeExpiresInThePast | internal/auth/service.go:63 | an overlong lifetime wraps and expires before it is issued |
| AuthService.GeneratedTokensCarryTheUser | internal/auth/service.go:61-88 | both tokens decode to the user's claims with kinds access and refresh |
| AuthService.RefreshTokenRefreshes | internal/auth/service.go:91-135 | a refresh token presented before its expiry while its user exists refreshes, and the new access token decodes to the stored user's access claims at the new time |
| AuthService.AccessTokenDoesNotRefresh | internal/auth/service.go:99-103 | an access token is never accepted as a refresh token |
| AuthService.ExpiredRefreshTokenIsRefused | internal/auth/service.go:93-97 | after a thousand years a refresh token is refused |
| AuthProvider.NewProvider | internal/auth/provider.go:23-32 | "google" and "apple" give those providers with the config's client ids; any other name is the invalid-provider error |
| AuthProvider.Message | internal/auth/provider.go:41-43 | the texts "provider is not valid", "invalid token", "invalid token subject" |
| AuthProvider.InvalidProviderIffUnknownName | internal/auth/provider.go:23-32 | the invalid-provider error iff the name is neither "google" nor "apple" |
| AuthProvider.MessageInjective | internal/auth/provider.go:41-43 | exactly the three errors the authentication code raises have a text, and no two of them share it |
| AuthController.Answer | internal/auth/controller.go:39-47 | the sign-in's error, or the user's DTO with the generated tokens |
| AuthController.HandleAuthToken | internal/auth/controller.go:12-48 | an invalid body, provider, token, sign-in or signing error stops the pipeline unchanged, with no later step; success gives the DTO and tokens |
| AuthController.HandleRefreshToken | internal/auth/controller.go:53-61 | the service's refresh result unchanged |
| AuthController.ValidBody | internal/domain/auth_token.go:37-42 | a missing token or device fails; a passing body names apple or google; apple without data fails; a google body with token and device passes |
| AuthController.ValidBodyHasKnownProvider | internal/domain/auth_token.go:37-42 | a valid body names "apple" or "google" |
| AuthController.BodiesWithoutDeviceOrKnownProviderAreInvalid | internal/domain/auth_token.go:37-42 | no device, or another provider, fails validation |
| AuthController.ExampleBodiesAreInvalid | internal/auth/controller_test.go:39-86 | the test bodies (made-up providers, no device) fail validation |
| AuthController.AppleNeedsData | internal/domain/auth_token.go:37-42 | Apple needs the data field, Google does not |
| Authorizer.GeneratePolicy | functions/CustomAuthorizerFun/main.go:16-35 | principal "user", version 2012-10-17, one execute-api:Invoke statement with the effect and resource, context userID |
| Authorizer.ApiResource | functions/CustomAuthorizerFun/main.go:44-46 | None (an index panic) iff the ARN has fewer than six ':' fields |
| Authorizer.HandleRequest | functions/CustomAuthorizerFun/main.go:37-76 | a short ARN panics; Allow iff the context builds, the trimmed token verifies, its kind is not refresh and its sub is a string, and then the principal is the sub; a failed context, a token that does not verify and a refresh token each give the Deny policy for "User" with no error; the only errors are the panics of a short ARN and a `sub` that is not a string |
| Authorizer.MethodArnWidensToTheApi | functions/CustomAuthorizerFun/main.go:44-46 | a method ARN widens to every stage, verb and path of its API |
| Authorizer.AccessTokenIsAllowed | functions/CustomAuthorizerFun/main.go:37-76 | a fresh signed access token behind "Bearer " is allowed for its user |
| Authorizer.RefreshTokenIsDenied | functions/CustomAuthorizerFun/main.go:67-71 | a refresh token is always denied |
| Parsers.Convert | internal/utility/parsers.go:16-19 | an integer iff ParseInt accepts the text, else the text itself |
| Parsers.ConvertParams | internal/utility/parsers.go:13-23 | the same keys, each value converted; the input is not changed |
| Parsers.DecimalBecomesInt | internal/utility/parsers.go:16-17 | every int64 in decimal becomes that integer |
| Parsers.OutOfRangeStaysText | internal/utility/parsers.go:18-19 | a number beyond int64 stays text |
| Parsers.ConvertIsStable | internal/utility/parsers.go:16-19 | converting a converted value's text again gives the same value |
| Database.DsnFields | internal/database/database.go:13-21 | the seven key=value fields in the format's order, port in decimal, TimeZone=UTC |
| Database.NewConn | internal/database/database.go:12-28 | the dialector uses simple protocol and the DSN is the fields joined by spaces |
| Database.DsnIsJoinOfFields | internal/database/database.go:13-21 | values are not quoted: the DSN is its fields joined by single spaces |
| Database.FormatIntHasNoSpace | internal/database/database.go:19 | %d writes no space |
| Database.DsnSplitsIntoItsFields | internal/database/database.go:13-21 | with space-free values the DSN splits back into its fields, port round-tripping |
| Database.SpacedPasswordAddsAField | internal/database/database.go:13-21 | a password with a space yields eight pieces |
| Langchain.PromptBuilder.Add | langchain/prompt.go:16-19 | the part appended, earlier parts kept, the same builder returned, the prompt extended |
| Langchain.PromptBuilder.GetPrompt | langchain/prompt.go:21-23 | an empty builder gives ""; a prompt whose parts hold no space splits back into those parts |
| Langchain.PromptSplitsIntoItsParts | langchain/prompt.go:21-23 | a prompt of space-free parts splits back into them |
| Langchain.ExtractKeys | langchain/main.go:12-18 | as many keys as entries, each map key exactly once, only map keys |

## Left out

- Transactions and concurrency: each operation is one sequential update of the store. A failed transaction restores the tables, but ids drawn and messages sent inside it stay.
- Store failures other than those the code distinguishes (record not found, empty bulk insert, unique violation, a uuid text Postgres's uuid input refuses) are not modelled.
- Network services are parameters or are left out:
  - the language model (generated topics);
  - the queue send (a success flag);
  - the Google Books author lookup (`internal/utility/bookApi.go`), Telegram and push notifications.
- `ORDER BY RANDOM()` is a parameter: the colour draw (constrained by a predicate) and the preview draw.
- ILIKE wildcard characters inside a query are matched literally, and case folding is ASCII only.
- JWT signing and verification are an abstract `sign`/`decode` pair. HS256 itself and the JSON encoding of claims are not modelled; a number claim is an integer, and float claims are out of scope.
- Google and Apple token verification (`provider_google.go`, `provider_apple.go`) is a parameter of the controller, and the validators' construction is a success flag.
- Times are UTC seconds. The year arithmetic of `AddDate` is modelled only as far as the refresh expiry needs it.
- Logging, the Lambda handlers' request decoding and JSON responses, `ParsePathParams`/`ParseQueryParams` (reflection), `NewDB`, configuration loading and the `failure` package are left out.
- The tests and generated mocks are not modelled. `internal/auth/service_mock.go:43` returns two values where the interface has three; only the controller tests' bodies are stated, by `AuthController.ExampleBodiesAreInvalid`.
- AuthService.GenerateToken: the access expiry is `jwtExpiresIn` minutes, as written. The default configuration value 604800 (`config/config.go:56`) is a week in seconds, so tokens last 420 days (`AuthService.DefaultAccessTokenLasts420Days`).
- Books.BookService.CreateBookPick: the colour palette must hold at least as many colours as there are generated topics; with fewer, the code indexes past the drawn colours.
- Users.WithProfile: the JSON encoding of the settings cannot fail here, so the settings are always written.
- Calendar: `AddDate` is modelled by the proleptic Gregorian calendar without time zones.
- Calendar.AddYears: that the result keeps the month and the day (29 February becoming 1 March in a year that is not leap) is proved only on the two dates of `NewYearThousandYearsOn` and `LeapDayThousandYearsOn`; for all dates only the time of day is proved kept (the `ensures` of `AddYears`).
- Tagging.UserBooksTopicsSorted: `ORDER BY topics.topic` is byte-wise order (`Text.LexLe`), the C collation; under a locale collation such as `en_US.UTF-8` Postgres orders case and accents differently.
- Users.ActiveSessionPos: gorm's `First()` orders by the primary key, and `domain.Session` (`internal/domain/session.go:15-24`) declares none, so Postgres orders by the model's first column, `created_at`; the model takes the first active session in table order. The two agree while a user has at most one active session, which sequential sign-ins keep.
- Domain.Pick: the `created_at`/`updated_at` columns of `book_picks` (`internal/domain/pick.go:6`) are not modelled, nor gorm's rewrite of `updated_at` on every pick update (edits, index shifts, reindexing); no modelled read looks at them.
- Books.BookService.SemanticSearch and Books.BookService.SearchPickInBook: both raw queries page with `LIMIT ? OFFSET ?` and have no `ORDER BY`, and the semantic search is a `SELECT DISTINCT`, so Postgres may return the rows in any order, and with an offset or a short limit any subset of them on a page. The model takes table order, so the page contents are one choice among several. `Queries.SemanticSearchIsScoped` and `Queries.SearchInBookMeans` hold for every order. `Queries.SemanticSearchIsComplete` and `Queries.SearchInBookIsComplete` hold for every order at offset 0 with a covering limit.
- Rows.SortBy: Postgres leaves the order of rows with equal sort keys unspecified; the model keeps them in table order, so every ordering contract holds for any tie order but the exact sequence of tied rows is one choice among several.
