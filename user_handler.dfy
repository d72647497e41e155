/**
 * The HTTP handlers of the user routes. A handler either writes a response
 * itself (a status and a JSON body) or hands an error back to the framework,
 * which renders it. Request bodies arrive already decoded (or not decodable),
 * query parameters as a map; hashing, password checking, token signing, the
 * clock and the session backend are parameters.
 */
module Handlers {
  import opened Wrappers
  import opened GoInt
  import opened ObjectIds
  import opened Utils
  import opened Types
  import opened Db

  /** The errors a handler returns to the framework instead of writing a response. */
  datatype HandlerError =
    | Store(e: StoreError)   // passed through from the store unchanged
    | BodyParse              // the request body is not the expected JSON
    | Invalid                // the decoded body breaks a declared constraint
    | HashFailed             // the password could not be hashed
    | SessionUnavailable     // the session could not be loaded
    | SessionNotSaved        // the session could not be saved

  datatype Response =
    | Reply(status: int, body: Json)   // a JSON response written by the handler
    | Plain(status: int, text: string) // a bare status with its standard reason phrase
    | Failed(error: HandlerError)      // an error handed to the framework

  function ErrorBody(msg: string): Json {
    JObject(map["error" := JString(msg)])
  }

  function MessageBody(msg: string): Json {
    JObject(map["message" := JString(msg)])
  }

  // ---------------------------------------------------------------------------
  // Reading one user.

  /** `GET /users/:id`: the public view of the user the key names, or the store's error unchanged. */
  function HandleGetUser(users: seq<User>, id: string): (r: Response)
    ensures r.Failed? <==> FindUser(users, id).Err?
    ensures r.Failed? ==> r.error == Store(FindUser(users, id).error)
    ensures r.Reply? ==> r.status == 200 && exists u :: u in users && r.body == PublicJson(u)
    ensures r.Reply? ==> "encrypted_password" !in r.body.fields
    ensures FindUser(users, id).Ok? ==> r == Reply(200, PublicJson(FindUser(users, id).value))
  {
    match FindUser(users, id)
    case Err(e) => Failed(Store(e))
    case Ok(u) => Reply(200, PublicJson(u))
  }

  // ---------------------------------------------------------------------------
  // Listing users.

  /** Fiber's `Query(key, default)`: the parameter's value, or the default when it is absent or empty. */
  function QueryOr(params: map<string, string>, key: string, default: string): (v: string)
    ensures key in params && params[key] != "" ==> v == params[key]
    ensures key !in params || params[key] == "" ==> v == default
  {
    if key in params && params[key] != "" then params[key] else default
  }

  datatype ListQuery = ListQuery(page: Int64, pageSize: Int64, sortField: string, sortOrder: string, searchQuery: string)

  /**
   * The five query parameters: an absent or empty one takes its default (page
   * 1, page size 10, "name", "asc", no search); the two numbers are read with
   * their parse errors discarded.
   */
  function ParseListQuery(params: map<string, string>): (q: ListQuery)
    ensures q.page == if "page" in params && params["page"] != "" then Atoi(params["page"]) else 1
    ensures q.pageSize == if "page_size" in params && params["page_size"] != "" then Atoi(params["page_size"]) else 10
    ensures q.sortField == if "sort_field" in params && params["sort_field"] != "" then params["sort_field"] else "name"
    ensures q.sortOrder == if "sort_order" in params && params["sort_order"] != "" then params["sort_order"] else "asc"
    ensures q.searchQuery == if "search_query" in params then params["search_query"] else ""
  {
    DecimalOne();
    AtoiDecimal(1);
    AtoiDecimal(10);
    ListQuery(
      Atoi(QueryOr(params, "page", "1")),
      Atoi(QueryOr(params, "page_size", "10")),
      QueryOr(params, "sort_field", "name"),
      QueryOr(params, "sort_order", "asc"),
      QueryOr(params, "search_query", ""))
  }

  /** Whether the paginator announces a next page: the product is Go `int` arithmetic and wraps. */
  function HasNext(page: Int64, pageSize: Int64, total: int): (b: bool)
    ensures MinInt64 <= page * pageSize <= MaxInt64 ==> (b <==> page * pageSize < total)
  {
    Wrap64(page * pageSize) < total
  }

  function Paginator(page: Int64, pageSize: Int64, total: int): (j: Json)
    ensures j.JObject? && j.fields.Keys == {"current_page", "has_next", "total", "page_size"}
    ensures j.fields["current_page"] == JInt(page) && j.fields["page_size"] == JInt(pageSize)
    ensures j.fields["total"] == JInt(total)
    ensures j.fields["has_next"] == JBool(HasNext(page, pageSize, total))
  {
    JObject(map[
      "current_page" := JInt(page),
      "has_next" := JBool(HasNext(page, pageSize, total)),
      "total" := JInt(total),
      "page_size" := JInt(pageSize)])
  }

  function Results(items: seq<User>): (j: Json)
    ensures j.JArray? && |j.items| == |items|
    ensures forall i :: 0 <= i < |items| ==> j.items[i] == PublicJson(items[i])
  {
    JArray(seq(|items|, i requires 0 <= i < |items| => PublicJson(items[i])))
  }

  /** `GET /users`: one page of the search, with a paginator, or the store's error unchanged. */
  function HandleGetUsers(users: seq<User>, params: map<string, string>): (r: Response)
    ensures var q := ParseListQuery(params);
      var res := GetUsers(users, q.page, q.pageSize, q.sortField, q.sortOrder, q.searchQuery);
      && (r.Failed? <==> res.Err?)
      && (r.Failed? ==> r.error == Store(res.error))
      && (res.Ok? ==>
            && r.Reply? && r.status == 200 && r.body.JObject? && r.body.fields.Keys == {"results", "paginator"}
            && r.body.fields["results"] == Results(res.value.items)
            && r.body.fields["paginator"] == Paginator(q.page, q.pageSize, res.value.total))
  {
    var q := ParseListQuery(params);
    match GetUsers(users, q.page, q.pageSize, q.sortField, q.sortOrder, q.searchQuery)
    case Err(e) => Failed(Store(e))
    case Ok(page) =>
      var fields := map["results" := Results(page.items), "paginator" := Paginator(q.page, q.pageSize, page.total)];
      assert fields.Keys == {"results", "paginator"};
      Reply(200, JObject(fields))
  }

  lemma DecimalOne()
    ensures Decimal(1) == "1" && Decimal(10) == "10"
  {
  }

  /** An empty parameter counts as absent. */
  lemma EmptyParameterIsDefault(params: map<string, string>, key: string)
    ensures ParseListQuery(params[key := ""]) == ParseListQuery(params - {key})
  {
    QueryOrEmpty(params, key, "page", "1");
    QueryOrEmpty(params, key, "page_size", "10");
    QueryOrEmpty(params, key, "sort_field", "name");
    QueryOrEmpty(params, key, "sort_order", "asc");
    QueryOrEmpty(params, key, "search_query", "");
  }

  lemma QueryOrEmpty(params: map<string, string>, key: string, k: string, default: string)
    ensures QueryOr(params[key := ""], k, default) == QueryOr(params - {key}, k, default)
  {
  }

  /** A page or page size that is given but is not a decimal number reads as 0, unless its leading digits overflow. */
  lemma NonNumericIsZero(params: map<string, string>)
    ensures "page" in params && params["page"] != "" && !WellFormedDecimal(params["page"]) && !OverflowsRange(params["page"]) ==>
      ParseListQuery(params).page == 0
    ensures "page_size" in params && params["page_size"] != "" && !WellFormedDecimal(params["page_size"]) && !OverflowsRange(params["page_size"]) ==>
      ParseListQuery(params).pageSize == 0
  {
  }

  /**
   * Such a non-numeric page becomes page 0, which the store refuses (after a
   * refused sort key, if there is one); the refusal is handed to the framework.
   */
  lemma NonNumericPageRefused(users: seq<User>, params: map<string, string>)
    requires "page" in params && params["page"] != "" && !WellFormedDecimal(params["page"]) && !OverflowsRange(params["page"])
    requires ParseListQuery(params).pageSize >= 1
    ensures HandleGetUsers(users, params).Failed?
    ensures SortPathAccepted(SortFieldOf(ParseListQuery(params).sortField)) ==>
      HandleGetUsers(users, params) == Failed(Store(InvalidPagination))
  {
    NonNumericIsZero(params);
    var q := ParseListQuery(params);
    PageZeroRefused(users, q.pageSize, q.sortField, q.sortOrder, q.searchQuery);
  }

  /**
   * A non-numeric page whose digits overflow before the junk, such as
   * "99999999999999999999x", reads as the largest `int`; with a page size of 1
   * the skip is 2^63 - 2 and the request is served, not refused.
   */
  lemma OverflowingPageServed(users: seq<User>, params: map<string, string>, n: nat, junk: string)
    requires n > MaxUint64 && junk != [] && !IsDigit(junk[0])
    requires "page" in params && params["page"] == Decimal(n) + junk
    requires ParseListQuery(params).pageSize == 1
    requires SortPathAccepted(SortFieldOf(ParseListQuery(params).sortField))
    ensures !WellFormedDecimal(params["page"])
    ensures ParseListQuery(params).page == MaxInt64
    ensures HandleGetUsers(users, params).Reply?
  {
    var page := params["page"];
    DecimalDenotes(n);
    assert page[0] == Decimal(n)[0];
    assert page[|Decimal(n)|] == junk[0];
    OverflowBeforeJunk(n, junk);
    assert Skip(MaxInt64, 1) == MaxInt64 - 1;
  }

  /**
   * Without overflow, a served page announces a next page exactly when the
   * next page (the same query, one page further) is not empty.
   */
  lemma HasNextIffNextPageNonEmpty(users: seq<User>, page: Int64, pageSize: Int64, sortField: string, sortOrder: string, q: string)
    requires 1 <= page < MaxInt64 && pageSize >= 1 && (page + 1) * pageSize <= MaxInt64
    requires SortPathAccepted(SortFieldOf(sortField))
    ensures GetUsers(users, page, pageSize, sortField, sortOrder, q).Ok?
    ensures GetUsers(users, page + 1, pageSize, sortField, sortOrder, q).Ok?
    ensures HasNext(page, pageSize, GetUsers(users, page, pageSize, sortField, sortOrder, q).value.total)
        <==> GetUsers(users, page + 1, pageSize, sortField, sortOrder, q).value.items != []
  {
    NextPageBounds(page, pageSize);
    ThisPageTotal(users, page, pageSize, sortField, sortOrder, q);
    NextPageItems(users, page, pageSize, sortField, sortOrder, q);
    var total := GetUsers(users, page, pageSize, sortField, sortOrder, q).value.total;
    var done := page * pageSize;
    assert MinInt64 <= done <= MaxInt64;
    assert HasNext(page, pageSize, total) <==> done < total;
  }

  lemma ThisPageTotal(users: seq<User>, page: Int64, pageSize: Int64, sortField: string, sortOrder: string, q: string)
    requires page >= 1 && pageSize >= 1 && page * pageSize <= MaxInt64
    requires SortPathAccepted(SortFieldOf(sortField))
    ensures GetUsers(users, page, pageSize, sortField, sortOrder, q).Ok?
    ensures GetUsers(users, page, pageSize, sortField, sortOrder, q).value.total == |Matched(users, q)|
  {
    EarlierPagesSkipped(users, page, pageSize, sortField, sortOrder, q);
  }

  lemma NextPageItems(users: seq<User>, page: Int64, pageSize: Int64, sortField: string, sortOrder: string, q: string)
    requires page >= 1 && pageSize >= 1 && (page + 1) * pageSize <= MaxInt64
    requires SortPathAccepted(SortFieldOf(sortField))
    ensures page + 1 <= MaxInt64
    ensures GetUsers(users, page + 1, pageSize, sortField, sortOrder, q).Ok?
    ensures GetUsers(users, page + 1, pageSize, sortField, sortOrder, q).value.items != [] <==> page * pageSize < |Matched(users, q)|
  {
    NextPageBounds(page, pageSize);
    EarlierPagesSkipped(users, page + 1, pageSize, sortField, sortOrder, q);
    PipelineAt(users, q, SortFieldOf(sortField), page * pageSize, pageSize);
  }

  /** A served page is empty exactly when it starts at or past the last match. */
  lemma PipelineAt(users: seq<User>, q: string, field: string, skip: int, limit: int)
    requires skip >= 0 && limit >= 1 && SortPathAccepted(field)
    ensures Pipeline(users, q, field, skip, limit).Ok?
    ensures Pipeline(users, q, field, skip, limit).value.items != [] <==> skip < |Matched(users, q)|
  {
  }

  lemma NextPageBounds(page: Int64, pageSize: Int64)
    requires page >= 1 && pageSize >= 1 && (page + 1) * pageSize <= MaxInt64
    ensures 0 <= page * pageSize <= (page + 1) * pageSize
    ensures page + 1 <= MaxInt64
    ensures Wrap64(page * pageSize) == page * pageSize
    ensures ((page + 1) - 1) * pageSize == page * pageSize
    ensures (page + 1) * pageSize - pageSize == page * pageSize
  {
    assert (page + 1) * pageSize == page * pageSize + pageSize;
  }

  /**
   * The product in `has_next` can wrap while the skip does not: page 2^62 of
   * size 2 skips 2^63 - 2 documents and is served, empty, yet announces a next
   * page over an empty collection. (`AtoiDecimal` gives a parameter that reads
   * as that page.)
   */
  lemma HasNextOverflow(params: map<string, string>)
    requires ParseListQuery(params).page == 0x4000_0000_0000_0000 && ParseListQuery(params).pageSize == 2
    requires SortPathAccepted(SortFieldOf(ParseListQuery(params).sortField))
    ensures var r := HandleGetUsers([], params);
      && r.Reply?
      && r.body.fields["results"] == JArray([])
      && r.body.fields["paginator"].fields["total"] == JInt(0)
      && r.body.fields["paginator"].fields["has_next"] == JBool(true)
  {
    var q := ParseListQuery(params);
    OverflowServed(q.sortField, q.sortOrder, q.searchQuery);
    assert HasNext(0x4000_0000_0000_0000, 2, 0) by {
      assert Wrap64(0x4000_0000_0000_0000 * 2) == MinInt64;
    }
  }

  lemma OverflowServed(sortField: string, sortOrder: string, q: string)
    requires SortPathAccepted(SortFieldOf(sortField))
    ensures GetUsers([], 0x4000_0000_0000_0000, 2, sortField, sortOrder, q) == Ok(Page([], 0))
  {
    assert Skip(0x4000_0000_0000_0000, 2) == 0x7FFF_FFFF_FFFF_FFFE;
  }

  /** The paginator repeats the page, the page size and the store's total as they are. */
  lemma PaginatorEchoes(users: seq<User>, params: map<string, string>)
    requires HandleGetUsers(users, params).Reply?
    ensures var q := ParseListQuery(params);
      var page := GetUsers(users, q.page, q.pageSize, q.sortField, q.sortOrder, q.searchQuery).value;
      var p := HandleGetUsers(users, params).body.fields["paginator"];
      && p.fields["current_page"] == JInt(q.page)
      && p.fields["page_size"] == JInt(q.pageSize)
      && p.fields["total"] == JInt(page.total)
      && page.total == |Matched(users, q.searchQuery)|
  {
  }

  /** With no parameters the first ten documents, in descending order on the missing "name" field, are listed. */
  lemma DefaultListing(users: seq<User>)
    ensures var r := HandleGetUsers(users, map[]);
      var sorted := Ranked(users, "", "name");
      && r.Reply?
      && r.body.fields["results"] == Results(sorted[..Min(10, |sorted|)])
      && r.body.fields["paginator"] == Paginator(1, 10, |users|)
      && (r.body.fields["paginator"].fields["has_next"] == JBool(true) <==> 10 < |users|)
  {
    SortPaths();
    GetUsersPage(users, 1, 10, "name", "asc", "");
  }

  // ---------------------------------------------------------------------------
  // Login and logout.

  /** The claims a token carries: the user's identifier and an expiry 72 hours on, in Unix seconds. */
  datatype Claims = Claims(userId: string, exp: int)

  /** `time.Hour * 72`, in nanoseconds. */
  const TokenLifetime: Time := 72 * 3600 * 1_000_000_000

  /** Seconds since the epoch, rounded down, as `Time.Unix` gives them. */
  function UnixSeconds(now: Time): int {
    now / 1_000_000_000
  }

  /** The claims of a token issued at `now`: the user's identifier, and the Unix second exactly 72 hours after the current one. */
  function TokenClaims(userId: string, now: Time): (c: Claims)
    ensures c.userId == userId
    ensures c.exp == UnixSeconds(now) + 72 * 3600
  {
    Claims(userId, UnixSeconds(now + TokenLifetime))
  }

  /** The signing primitive, keyed with the server's secret; it may fail. */
  type Signer = Claims -> Option<string>

  /** What a login decides: the response, the claims of a token requested (if any), the user id written to the session (if any). */
  datatype Login = Login(response: Response, signed: Option<Claims>, written: Option<string>)

  /**
   * `POST /login`: parse, validate, look up by email, check the password, sign
   * a token, load the session, save the user id in it; the first step that
   * fails decides the answer.
   */
  function LoginDecision(users: seq<User>, body: Option<LoginInput>, emailFormat: string -> bool,
                         check: (string, string) -> bool, sign: Signer, now: Time,
                         sessionOk: bool, saveOk: bool): (d: Login)
    ensures d.written.Some? ==> d.signed.Some? && sign(d.signed.value).Some? && d.signed.value.userId == d.written.value
    ensures d.written.Some? <==> d.response.Reply? && d.response.status == 200
    ensures d.written.Some? ==> d.response.body == JObject(map["token" := JString(sign(d.signed.value).value)])
    ensures d.signed.Some? ==>
      && body.Some? && ValidLoginInput(body.value, emailFormat)
      && FindUser(users, body.value.email).Ok?
      && check(body.value.password, FindUser(users, body.value.email).value.encryptedPassword)
      && d.signed.value == TokenClaims(Hex(FindUser(users, body.value.email).value.id), now)
  {
    match body
    case None => Login(Reply(400, ErrorBody("Cannot parse JSON")), None, None)
    case Some(input) =>
      if !ValidLoginInput(input, emailFormat) then Login(Failed(Invalid), None, None)
      else match FindUser(users, input.email)
        case Err(_) => Login(Reply(404, ErrorBody("User not found")), None, None)
        case Ok(user) =>
          if !check(input.password, user.encryptedPassword) then Login(Reply(401, ErrorBody("Invalid credentials")), None, None)
          else
            var claims := TokenClaims(Hex(user.id), now);
            match sign(claims)
            case None => Login(Reply(500, ErrorBody("Could not generate token")), Some(claims), None)
            case Some(token) =>
              if !sessionOk then Login(Failed(SessionUnavailable), Some(claims), None)
              else if !saveOk then Login(Failed(SessionNotSaved), Some(claims), None)
              else Login(Reply(200, JObject(map["token" := JString(token)])), Some(claims), Some(Hex(user.id)))
  }

  /** A body that does not parse or does not validate is answered before the collection is read. */
  lemma LoginValidatesFirst(users: seq<User>, other: seq<User>, body: Option<LoginInput>, emailFormat: string -> bool,
                            check: (string, string) -> bool, sign: Signer, now: Time, sessionOk: bool, saveOk: bool)
    requires body.None? || !ValidLoginInput(body.value, emailFormat)
    ensures var d := LoginDecision(users, body, emailFormat, check, sign, now, sessionOk, saveOk);
      && d == LoginDecision(other, body, emailFormat, check, sign, now, sessionOk, saveOk)
      && d.signed.None? && d.written.None?
      && d.response == if body.None? then Reply(400, ErrorBody("Cannot parse JSON")) else Failed(Invalid)
  {
  }

  /** Any failed lookup answers 404 and a wrong password 401; neither requests a token or writes the session. */
  lemma LoginRejects(users: seq<User>, input: LoginInput, emailFormat: string -> bool,
                     check: (string, string) -> bool, sign: Signer, now: Time, sessionOk: bool, saveOk: bool)
    requires ValidLoginInput(input, emailFormat)
    ensures var d := LoginDecision(users, Some(input), emailFormat, check, sign, now, sessionOk, saveOk);
      var found := FindUser(users, input.email);
      && (found.Err? ==> d == Login(Reply(404, ErrorBody("User not found")), None, None))
      && (found.Ok? && !check(input.password, found.value.encryptedPassword) ==>
            d == Login(Reply(401, ErrorBody("Invalid credentials")), None, None))
  {
  }

  /**
   * Once the body is valid, the user is found and the password checks, the
   * last steps decide: a failed signing answers 500, a session that cannot be
   * loaded or saved hands its error to the framework, and otherwise the token
   * is answered and the user's identifier is written to the session.
   */
  lemma LoginLastSteps(users: seq<User>, input: LoginInput, emailFormat: string -> bool,
                       check: (string, string) -> bool, sign: Signer, now: Time, sessionOk: bool, saveOk: bool)
    requires ValidLoginInput(input, emailFormat)
    requires FindUser(users, input.email).Ok?
    requires check(input.password, FindUser(users, input.email).value.encryptedPassword)
    ensures var d := LoginDecision(users, Some(input), emailFormat, check, sign, now, sessionOk, saveOk);
      var id := Hex(FindUser(users, input.email).value.id);
      var claims := TokenClaims(id, now);
      && (sign(claims).None? ==> d == Login(Reply(500, ErrorBody("Could not generate token")), Some(claims), None))
      && (sign(claims).Some? && !sessionOk ==> d == Login(Failed(SessionUnavailable), Some(claims), None))
      && (sign(claims).Some? && sessionOk && !saveOk ==> d == Login(Failed(SessionNotSaved), Some(claims), None))
      && (sign(claims).Some? && sessionOk && saveOk ==>
            d == Login(Reply(200, JObject(map["token" := JString(sign(claims).value)])), Some(claims), Some(id)))
  {
  }

  /**
   * A successful login names, in the token and in the session alike, the one
   * user with the given email, whose hash the password checks against.
   */
  lemma LoginSucceeds(users: seq<User>, input: LoginInput, emailFormat: string -> bool,
                      check: (string, string) -> bool, sign: Signer, now: Time, sessionOk: bool, saveOk: bool)
    requires IsEmail(input.email)
    requires LoginDecision(users, Some(input), emailFormat, check, sign, now, sessionOk, saveOk).written.Some?
    ensures var d := LoginDecision(users, Some(input), emailFormat, check, sign, now, sessionOk, saveOk);
      exists u :: u in users && u.email == input.email && check(input.password, u.encryptedPassword)
        && d.written.value == Hex(u.id) && d.signed.value == TokenClaims(Hex(u.id), now)
  {
    var u := FindUser(users, input.email).value;
    assert u in users && u.email == input.email;
  }

  /**
   * Signing up and then logging in with the same email and password succeeds
   * when no earlier user has that email, the validators accept the email, and
   * the token and the session work; the session then holds the new identifier.
   */
  lemma SignUpThenLogin(users: seq<User>, input: CreateUserInput, now: Time, hash: Hasher, freshId: ObjectId,
                        emailFormat: string -> bool, check: (string, string) -> bool, sign: Signer, later: Time)
    requires UniqueIds(users)
    requires ChecksOwnHash(hash, check)
    requires IsEmail(input.email) && emailFormat(input.email) && input.password != ""
    requires forall u :: u in users ==> u.email != input.email
    requires NewUser(input, now, hash).Some?
    requires InsertOne(users, NewUser(input, now, hash).value, freshId).result.Ok?
    requires forall c :: sign(c).Some?
    ensures var step := InsertOne(users, NewUser(input, now, hash).value, freshId);
      var d := LoginDecision(step.users, Some(LoginInput(input.email, input.password)), emailFormat, check, sign, later, true, true);
      d.written == Some(Hex(freshId))
  {
    var created := NewUser(input, now, hash).value;
    var step := InsertOne(users, created, freshId);
    var login := LoginInput(input.email, input.password);
    NewUserVerifies(input, now, hash, check);
    assert step.users[|users|] == Stored(step.result.value);
    assert FirstMatch(step.users, ByEmail(input.email)) == |users|;
    assert FindUser(step.users, input.email) == Ok(Stored(step.result.value));
  }

  /** The server-side session of the client making the request. */
  class Session {
    var values: map<string, string>

    constructor ()
      ensures values == map[]
    {
      values := map[];
    }

    /** Logging out empties the session; a backend that cannot load or destroy it is answered with 500. */
    method HandleLogout(loaded: bool, destroyed: bool) returns (r: Response)
      modifies this
      ensures loaded && destroyed ==> r == Plain(200, "OK") && values == map[]
      ensures !(loaded && destroyed) ==> r == Reply(500, ErrorBody("Internal server error")) && values == old(values)
    {
      if !loaded {
        return Reply(500, ErrorBody("Internal server error"));
      }
      if !destroyed {
        return Reply(500, ErrorBody("Internal server error"));
      }
      values := map[];
      r := Plain(200, "OK");
    }
  }

  /** The login handler: it performs the ladder of `LoginDecision` step by step against the store and the session. */
  method HandleLogin(store: UserStore, session: Session, body: Option<LoginInput>, emailFormat: string -> bool,
                     check: (string, string) -> bool, sign: Signer, now: Time, sessionOk: bool, saveOk: bool)
    returns (r: Response)
    modifies session
    ensures var d := LoginDecision(store.users, body, emailFormat, check, sign, now, sessionOk, saveOk);
      && r == d.response
      && session.values == if d.written.Some? then old(session.values)["user_id" := d.written.value] else old(session.values)
  {
    if body.None? {
      return Reply(400, ErrorBody("Cannot parse JSON"));
    }
    var input := body.value;
    if !ValidLoginInput(input, emailFormat) {
      return Failed(Invalid);
    }
    var found := store.GetUser(input.email);
    if found.Err? {
      return Reply(404, ErrorBody("User not found"));
    }
    var user := found.value;
    if !check(input.password, user.encryptedPassword) {
      return Reply(401, ErrorBody("Invalid credentials"));
    }
    var token := sign(TokenClaims(Hex(user.id), now));
    if token.None? {
      return Reply(500, ErrorBody("Could not generate token"));
    }
    if !sessionOk {
      return Failed(SessionUnavailable);
    }
    if !saveOk {
      return Failed(SessionNotSaved);
    }
    session.values := session.values["user_id" := Hex(user.id)];
    r := Reply(200, JObject(map["token" := JString(token.value)]));
  }

  // ---------------------------------------------------------------------------
  // Writing users.

  /** `DELETE /users/:id`: a confirmation exactly when the store reports no error, which it then passes on unchanged. */
  method HandleDeleteUser(store: UserStore, id: string) returns (r: Response)
    requires store.Valid()
    modifies store
    ensures store.Valid()
    ensures r == Reply(200, MessageBody("User has been deleted")) <==> IsObjectIdHex(id)
    ensures !IsObjectIdHex(id) ==> r == Failed(Store(InvalidHex)) && store.users == old(store.users)
    ensures IsObjectIdHex(id) ==> ObjectIdFromHex(id).Some?
    ensures IsObjectIdHex(id) ==> store.users == DeleteOne(old(store.users), ObjectIdFromHex(id).value)
  {
    var outcome := store.DeleteUser(id);
    match outcome
    case Fail(e) => r := Failed(Store(e));
    case Pass => r := Reply(200, MessageBody("User has been deleted"));
  }

  /**
   * `PUT /users/:id`: the body must parse; the update input declares no
   * constraints, so validation always passes; then the store's outcome decides.
   */
  method HandleUpdateUser(store: UserStore, id: string, body: Option<map<string, string>>, now: Time) returns (r: Response)
    requires store.Valid()
    modifies store
    ensures store.Valid()
    ensures body.None? ==> r == Failed(BodyParse) && store.users == old(store.users)
    ensures body.Some? ==> (r == Reply(200, MessageBody("User has been updated")) <==> IsObjectIdHex(id))
    ensures body.Some? && !IsObjectIdHex(id) ==> r == Failed(Store(InvalidHex)) && store.users == old(store.users)
    ensures body.Some? && IsObjectIdHex(id) ==> ObjectIdFromHex(id).Some?
    ensures body.Some? && IsObjectIdHex(id) ==>
      store.users == UpdateOne(old(store.users), ObjectIdFromHex(id).value, DecodeUpdateUserInput(body.value).(updatedAt := now))
  {
    if body.None? {
      return Failed(BodyParse);
    }
    var input := DecodeUpdateUserInput(body.value);
    var outcome := store.UpdateUser(id, input, now);
    match outcome
    case Fail(e) => r := Failed(Store(e));
    case Pass => r := Reply(200, MessageBody("User has been updated"));
  }

  /**
   * `POST /users`: parse, validate, build the user (hashing its password), and
   * insert it; the response is the public view of the inserted user.
   */
  method HandleCreateUser(store: UserStore, body: Option<CreateUserInput>, emailFormat: string -> bool,
                          now: Time, hash: Hasher, freshId: ObjectId) returns (r: Response)
    requires store.Valid()
    modifies store
    ensures store.Valid()
    ensures body.None? ==> r == Failed(BodyParse)
    ensures body.Some? && !ValidCreateUserInput(body.value, emailFormat) ==> r == Failed(Invalid)
    ensures body.Some? && ValidCreateUserInput(body.value, emailFormat) && NewUser(body.value, now, hash).None? ==> r == Failed(HashFailed)
    ensures r.Failed? && r.error != Store(DuplicateKey) ==> store.users == old(store.users)
    ensures body.Some? && ValidCreateUserInput(body.value, emailFormat) && NewUser(body.value, now, hash).Some? ==>
      var step := InsertOne(old(store.users), NewUser(body.value, now, hash).value, freshId);
      && store.users == step.users
      && r == match step.result { case Ok(u) => Reply(200, PublicJson(u)) case Err(e) => Failed(Store(e)) }
  {
    if body.None? {
      return Failed(BodyParse);
    }
    var input := body.value;
    if !ValidCreateUserInput(input, emailFormat) {
      return Failed(Invalid);
    }
    var newUser := NewUser(input, now, hash);
    if newUser.None? {
      return Failed(HashFailed);
    }
    var inserted := store.CreateUser(newUser.value, freshId);
    match inserted
    case Err(e) => r := Failed(Store(e));
    case Ok(u) => r := Reply(200, PublicJson(u));
  }

  /**
   * A later lookup by the new identifier answers the user as stored, with both
   * instants cut to the millisecond; it equals the sign-up response exactly
   * when the sign-up happened on a whole millisecond.
   */
  lemma CreatedUserIsServed(users: seq<User>, input: CreateUserInput, now: Time, hash: Hasher, freshId: ObjectId)
    requires UniqueIds(users)
    requires NewUser(input, now, hash).Some?
    requires InsertOne(users, NewUser(input, now, hash).value, freshId).result.Ok?
    ensures var step := InsertOne(users, NewUser(input, now, hash).value, freshId);
      && step.result.value.id == freshId
      && HandleGetUser(step.users, Hex(freshId)) == Reply(200, PublicJson(Stored(step.result.value)))
      && (PublicJson(Stored(step.result.value)) == PublicJson(step.result.value) <==> now % 1_000_000 == 0)
  {
    var step := InsertOne(users, NewUser(input, now, hash).value, freshId);
    var u := step.result.value;
    CreateThenFind(users, NewUser(input, now, hash).value, freshId);
    if PublicJson(Stored(u)) == PublicJson(u) {
      assert PublicJson(Stored(u)).fields["created_at"] == PublicJson(u).fields["created_at"];
    }
    if now % 1_000_000 == 0 {
      assert Stored(u) == u;
    }
  }
}
