/**
 * The records of the `domain` package: the database rows (books, picks,
 * topics, book-topic links, search keywords, users, sessions), the request
 * bodies the services read, the response records they build, and the record
 * conversions `ShortBookFromBook`, `ShortBooksFromBookList`,
 * `UserDtoFromModel`, `NewUserSettings` and the third-party user builders.
 *
 * Row ids (gorm `uint` primary keys) are `nat`; times are whole seconds since
 * the Unix epoch, and `ZeroTime` is Go's zero `time.Time`
 * (`0001-01-01 00:00:00 UTC`).
 */
module Domain {
  import opened Wrappers
  import opened Uuids

  type Id = nat
  type Time = int

  /** `time.Time{}`, January 1 of year 1, 00:00:00 UTC, in Unix seconds. */
  const ZeroTime: Time := -62135596800

  // ---------------------------------------------------------------- rows

  /** A `books` row; sample books have a NULL `user_id` (None). */
  datatype Book = Book(id: Id, guid: Uuid, userId: Option<Id>, title: string, author: string,
                       createdAt: Time, updatedAt: Time)

  /** A `book_picks` row. */
  datatype Pick = Pick(id: Id, guid: Uuid, bookId: Id, userId: Id, content: string,
                       contentText: string, title: string, index: nat)

  /** A `topics` row; `(userId, topic)` is unique. */
  datatype Topic = Topic(id: Id, userId: Id, topic: string, color: string)

  /** A `book_topics` row. */
  datatype BookTopic = BookTopic(bookId: Id, topicId: Id)

  /** A `pick_search_keywords` row. */
  datatype Keyword = Keyword(pickId: Id, keyword: string, userId: Id)

  /** The message put on the pick-keywords queue. */
  datatype KeywordMessage = KeywordMessage(pickId: Id, content: string, userGuid: Uuid)

  datatype UserSettings = UserSettings(darkMode: bool, appLanguage: string, secondLanguage: string,
                                       notificationEnabled: bool, notificationMode: string)

  /**
   * A `users` row. `isCreated` is not a column: it is true only on the value
   * `CreateUserIfNotExists` returns for a user it has just created.
   */
  datatype User = User(id: Id, guid: Uuid, externalId: string, email: string, givenName: string,
                       familyName: string, provider: string, settings: Option<UserSettings>,
                       subscriptionReceiptId: string, isNotificationEnabled: bool, isActive: bool,
                       isCreated: bool, createdAt: Time, updatedAt: Time)

  /** A `sessions` row; a session is active while `expiredAt` is the zero time. */
  datatype Session = Session(guid: Uuid, userId: Id, deviceId: string, deviceToken: string,
                             expiredAt: Time, createdAt: Time, updatedAt: Time)

  /** The identity a sign-in provider vouches for, plus the device it signs in from. */
  datatype ThirdPartyUser = ThirdPartyUser(email: string, sub: string, name: string, givenName: string,
                                           familyName: string, provider: string, deviceId: string,
                                           deviceToken: string)

  // ---------------------------------------------------------------- errors

  datatype Error =
    | RecordNotFound          // gorm.ErrRecordNotFound
    | EmptySlice              // gorm.ErrEmptySlice: a bulk Create of no rows
    | UniqueViolation         // a unique column already holds the value
    | TransactionAborted      // a statement failed inside a transaction, so its commit rolled back
    | NegativeLimitOrOffset   // Postgres refuses a negative LIMIT or OFFSET
    | InvalidUuid             // uuid.Parse, or Postgres reading a uuid, refused the text
    | QueueSendFailed         // sqs.SendMessage failed
    | OracleFailed            // a call to the language model failed
    | Panic                   // the Go code panics (nil dereference, index out of range, ...)
    | InvalidToken            // "invalid token"
    | InvalidTokenSubject     // "invalid token subject"
    | InvalidProvider         // *InvalidProviderError, "provider is not valid"
    | ValidationFailed        // the request body failed its validator tags
    | ProviderRejected        // the sign-in provider refused the token
    | ProviderUnavailable     // building the provider failed (Google's token validator, Apple's client secret)
    | SigningFailed           // SignedString refused the key

  // ---------------------------------------------------------------- request bodies

  datatype CreateBookPickBody = CreateBookPickBody(content: string, contentText: string, index: Option<nat>)

  /** `bookId == Nil` asks for a new book. */
  datatype CreateBookBody = CreateBookBody(bookId: Uuid, title: string, author: string, pick: CreateBookPickBody)

  datatype BookListParams = BookListParams(offset: int, limit: int, search: string, topics: string)

  datatype GetPicksParams = GetPicksParams(bookId: string, offset: int, limit: int, orderBy: string,
                                           untilPickId: string)

  /** The path of `DELETE /book/{bookId}/pick/{pickId}`, as text. */
  datatype DeleteBookPickPath = DeleteBookPickPath(bookId: string, pickId: string)

  datatype SaveBookBody = SaveBookBody(bookId: Uuid)

  datatype EditBookTopicParams = EditBookTopicParams(topic: string, color: string)

  datatype EditBookOrderParams = EditBookOrderParams(guid: Uuid, index: nat)

  /** The book id is text; Postgres reads it as a uuid when a query uses it. */
  datatype EditBookBody = EditBookBody(bookId: string, title: string, author: string,
                                       topics: seq<EditBookTopicParams>, picks: seq<EditBookOrderParams>)

  /** `title == None` is a JSON body without a title; the ids are text, read as uuids by Postgres. */
  datatype EditBookPickBody = EditBookPickBody(bookId: string, pickId: string, content: string, text: string,
                                               title: Option<string>)

  datatype SearchGetParams = SearchGetParams(query: string, offset: int, limit: int, bookId: string)

  datatype UserProfileUpdate = UserProfileUpdate(subscriptionReceiptId: string, settings: UserSettings)

  datatype PatchSessionBody = PatchSessionBody(guid: string, deviceToken: string)

  // ---------------------------------------------------------------- responses

  datatype ShortBookResponse = ShortBookResponse(guid: Uuid, title: string)

  /** A topic as the book queries return it: only its name and colour are selected. */
  datatype TopicResponse = TopicResponse(topic: string, color: string)

  datatype BookTopicListResponse = BookTopicListResponse(topic: string, color: string, count: nat)

  datatype BookPickResponse = BookPickResponse(guid: Uuid, content: string, index: nat, title: string)

  /** The preview pick; with no pick to show it stays the zero value. */
  datatype BookPickPreviewResponse = BookPickPreviewResponse(guid: Uuid, contentText: string)

  const ZeroPreview := BookPickPreviewResponse(Nil, "")

  datatype BookResponse = BookResponse(guid: Uuid, title: string, author: string, updatedAt: Time,
                                       createdAt: Time, picksCount: nat, preview: BookPickPreviewResponse,
                                       topics: seq<TopicResponse>, picks: seq<BookPickResponse>)

  datatype SemanticSearchResponse = SemanticSearchResponse(bookId: Uuid, bookTitle: string, pickId: Uuid,
                                                           pickContent: string, pickIndex: nat, pickTitle: string)

  datatype SearchPickInBookResponse = SearchPickInBookResponse(pickId: Uuid, pickTitle: string,
                                                               pickContent: string, pickIndex: nat)

  datatype UserDto = UserDto(guid: Uuid, email: string, settings: Option<UserSettings>, givenName: string,
                             familyName: string, isCreated: bool, sessionId: Uuid, isPremium: bool)

  datatype UserHealth = UserHealth(isHealthy: bool, isPremium: bool)

  /** The tokens issued at sign-in or refresh; the expiry is in Unix seconds. */
  datatype AuthTokenDto = AuthTokenDto(accessToken: string, refreshToken: string, accessTokenExpiresAt: Time)

  datatype AuthUserTokenDto = AuthUserTokenDto(user: UserDto, auth: AuthTokenDto)

  // ---------------------------------------------------------------- sign-in request

  datatype AuthTokenData = AuthTokenData(givenName: string, familyName: string)

  datatype AuthTokenDevice = AuthTokenDevice(id: string, token: string)

  /** The sign-in body; a JSON body without `data` or `device` leaves that pointer nil (None). */
  datatype AuthTokenBody = AuthTokenBody(token: string, provider: string, data: Option<AuthTokenData>,
                                         device: Option<AuthTokenDevice>)

  // ---------------------------------------------------------------- conversions

  /** `ShortBookFromBook`: the short form keeps exactly the guid and the title. */
  function ShortBookFromBook(book: Book): (r: ShortBookResponse)
    ensures r.guid == book.guid && r.title == book.title
  {
    ShortBookResponse(book.guid, book.title)
  }

  /** `ShortBooksFromBookList`: converts each book, in order. */
  method ShortBooksFromBookList(books: seq<Book>) returns (shortBooks: seq<ShortBookResponse>)
    ensures |shortBooks| == |books|
    ensures forall i :: 0 <= i < |books| ==> shortBooks[i] == ShortBookFromBook(books[i])
  {
    shortBooks := [];
    for i := 0 to |books|
      invariant |shortBooks| == i
      invariant forall j :: 0 <= j < i ==> shortBooks[j] == ShortBookFromBook(books[j])
    {
      shortBooks := shortBooks + [ShortBookFromBook(books[i])];
    }
  }

  /** `NewUserSettings`: dark mode and notifications on, mode "all", no languages. */
  function NewUserSettings(): (s: UserSettings)
    ensures s.darkMode && s.notificationEnabled && s.notificationMode == "all"
    ensures s.appLanguage == "" && s.secondLanguage == ""
  {
    UserSettings(true, "", "", true, "all")
  }

  /** `UserDtoFromModel`: the user's public fields, the given session, premium iff a receipt is stored. */
  function UserDtoFromModel(user: User, sessionId: Uuid): (dto: UserDto)
    ensures dto.guid == user.guid && dto.email == user.email && dto.settings == user.settings
    ensures dto.givenName == user.givenName && dto.familyName == user.familyName
    ensures dto.isCreated == user.isCreated && dto.sessionId == sessionId
    ensures dto.isPremium <==> |user.subscriptionReceiptId| > 0
  {
    UserDto(user.guid, user.email, user.settings, user.givenName, user.familyName, user.isCreated,
            sessionId, user.subscriptionReceiptId != "")
  }

  const NoThirdPartyUser := ThirdPartyUser("", "", "", "", "", "", "", "")

  /** `NewGoogleThirdPartyUser`: provider "google", every other field empty. */
  function NewGoogleThirdPartyUser(): (u: ThirdPartyUser)
    ensures u.provider == "google" && u == NoThirdPartyUser.(provider := "google")
  {
    ThirdPartyUser("", "", "", "", "", "google", "", "")
  }

  /** `NewAppleThirdPartyUser`: provider "apple", every other field empty. */
  function NewAppleThirdPartyUser(): (u: ThirdPartyUser)
    ensures u.provider == "apple" && u == NoThirdPartyUser.(provider := "apple")
  {
    ThirdPartyUser("", "", "", "", "", "apple", "", "")
  }
}
