/**
 * The user repository over an in-memory collection. The collection is a
 * sequence of documents in insertion order; a query that returns one document
 * returns the first that matches. The pure functions below state what each
 * store operation does to the collection; the class `UserStore` holds the
 * collection and performs the operations.
 */
module Db {
  import opened Wrappers
  import opened GoInt
  import opened Ascii
  import opened ObjectIds
  import opened Utils
  import opened Types
  import opened BsonOrder

  datatype StoreError =
    | InvalidHex          // the identifier is not 24 hexadecimal digits
    | NoDocuments         // a single-document lookup matched nothing
    | DuplicateKey        // an insert reused an identifier already in the collection
    | InvalidSortField    // the server refuses the `$sort` key: it is not a valid field path
    | InvalidPagination   // the server refuses a negative skip or a limit below 1

  /** A collection in which no two documents share an identifier, as the database's `_id` index guarantees. */
  ghost predicate UniqueIds(users: seq<User>) {
    forall i, j :: 0 <= i < j < |users| ==> users[i].id != users[j].id
  }

  // ---------------------------------------------------------------------------
  // Single-document lookup.

  /** What a single-document lookup filters on. */
  datatype Filter = ByEmail(email: string) | ById(id: ObjectId)

  predicate Matches(u: User, f: Filter) {
    match f
    case ByEmail(e) => u.email == e
    case ById(id) => u.id == id
  }

  /** Position of the first document matching `f`, or `|users|` when none does. */
  function FirstMatch(users: seq<User>, f: Filter): (k: nat)
    ensures k <= |users|
    ensures k < |users| ==> Matches(users[k], f)
    ensures forall j :: 0 <= j < k ==> !Matches(users[j], f)
  {
    if users == [] then 0 else if Matches(users[0], f) then 0 else 1 + FirstMatch(users[1..], f)
  }

  /** Emails and identifier strings never overlap: an email has an '@', a hexadecimal digit is never one. */
  lemma EmailIsNeverObjectIdHex(s: string)
    requires IsEmail(s)
    ensures !IsObjectIdHex(s)
  {
    var at := FirstIndex(s, '@');
    assert s[at] == '@' && !IsHexDigit(s[at]);
  }

  /**
   * Classification of a lookup key, before any document is read: an email is
   * looked up by email and never parsed as an identifier; anything else must
   * parse as an identifier.
   */
  function Classify(identifier: string): (r: Result<Filter, StoreError>)
    ensures IsEmail(identifier) ==> r == Ok(ByEmail(identifier))
    ensures !IsEmail(identifier) ==> (r.Ok? <==> IsObjectIdHex(identifier))
    ensures !IsEmail(identifier) && r.Ok? ==> r.value.ById? && Hex(r.value.id) == LowerString(identifier)
    ensures r.Err? ==> r.error == InvalidHex
  {
    if IsEmail(identifier) then Ok(ByEmail(identifier))
    else
      match ObjectIdFromHex(identifier)
      case None => Err(InvalidHex)
      case Some(id) =>
        HexParse(identifier);
        Ok(ById(id))
  }

  /** `FindOne` with the classified filter. */
  function FindUser(users: seq<User>, identifier: string): (r: Result<User, StoreError>)
    ensures r.Ok? ==> r.value in users
    ensures r.Ok? && IsEmail(identifier) ==> r.value.email == identifier
    ensures r.Ok? && !IsEmail(identifier) ==> Hex(r.value.id) == LowerString(identifier)
    ensures r == Err(InvalidHex) <==> !IsEmail(identifier) && !IsObjectIdHex(identifier)
    ensures IsEmail(identifier) ==> (r.Ok? <==> exists u :: u in users && u.email == identifier)
    ensures r.Err? ==> r.error in {InvalidHex, NoDocuments}
  {
    match Classify(identifier)
    case Err(e) => Err(e)
    case Ok(f) =>
      var k := FirstMatch(users, f);
      if k < |users| then Ok(users[k]) else Err(NoDocuments)
  }

  /** A key that is neither an email nor an identifier fails before the collection is consulted. */
  lemma RejectedBeforeQuery(users: seq<User>, other: seq<User>, identifier: string)
    requires !IsEmail(identifier) && !IsObjectIdHex(identifier)
    ensures FindUser(users, identifier) == FindUser(other, identifier) == Err(InvalidHex)
  {
  }

  /** A lookup by identifier finds the one document with that identifier, whichever case its digits are in. */
  lemma FindById(users: seq<User>, k: nat, identifier: string)
    requires UniqueIds(users) && k < |users|
    requires LowerString(identifier) == Hex(users[k].id)
    ensures FindUser(users, identifier) == Ok(users[k])
  {
    HexIsHexDigits(users[k].id);
    assert forall i :: 0 <= i < |identifier| ==> IsHexDigit(identifier[i]) by {
      forall i | 0 <= i < |identifier| ensures IsHexDigit(identifier[i]) {
        assert LowerChar(identifier[i]) == Hex(users[k].id)[i];
      }
    }
    if IsEmail(identifier) {
      EmailIsNeverObjectIdHex(identifier);
    }
    ParseHex(users[k].id);
    SameIdIffSameLower(identifier, Hex(users[k].id));
    assert FirstMatch(users, ById(users[k].id)) == k;
  }

  // ---------------------------------------------------------------------------
  // Insert, update, delete.

  /** The instant a BSON datetime keeps of `t`: whole milliseconds, rounded down. */
  function BsonTime(t: Time): (s: Time)
    ensures s <= t < s + 1_000_000 && s % 1_000_000 == 0
    ensures s == t <==> t % 1_000_000 == 0
  {
    t - t % 1_000_000
  }

  /** Both instants of `u` are whole milliseconds, as in every document the database holds. */
  predicate WholeMillis(u: User) {
    u.createdAt % 1_000_000 == 0 && u.updatedAt % 1_000_000 == 0
  }

  predicate AllWholeMillis(users: seq<User>) {
    forall u :: u in users ==> WholeMillis(u)
  }

  /** The document the driver writes for `u`: both timestamps cut to the millisecond, all else as it is. */
  function Stored(u: User): (v: User)
    ensures v.createdAt == BsonTime(u.createdAt) && v.updatedAt == BsonTime(u.updatedAt)
    ensures v.(createdAt := u.createdAt, updatedAt := u.updatedAt) == u
    ensures WholeMillis(v)
    ensures v == u <==> WholeMillis(u)
  {
    u.(createdAt := BsonTime(u.createdAt), updatedAt := BsonTime(u.updatedAt))
  }

  /** The collection after an operation, and what the operation returned. */
  datatype Step<R> = Step(result: R, users: seq<User>)

  /**
   * `InsertOne`: a document without an identifier gets `freshId`, the one the
   * driver generates; the returned user is the given one with that identifier,
   * its instants exact, while the stored document keeps them to the millisecond.
   * An identifier already present is refused and nothing is inserted.
   */
  function InsertOne(users: seq<User>, data: User, freshId: ObjectId): (r: Step<Result<User, StoreError>>)
    ensures var id := if data.id == NilObjectId then freshId else data.id;
      && (r.result.Err? <==> exists u :: u in users && u.id == id)
      && (r.result.Ok? ==> r.result.value == data.(id := id) && r.users == users + [Stored(r.result.value)])
      && (r.result.Err? ==> r.result.error == DuplicateKey && r.users == users)
    ensures UniqueIds(users) ==> UniqueIds(r.users)
    ensures AllWholeMillis(users) ==> AllWholeMillis(r.users)
  {
    var id := if data.id == NilObjectId then freshId else data.id;
    var k := FirstMatch(users, ById(id));
    if k < |users| then Step(Err(DuplicateKey), users)
    else Step(Ok(data.(id := id)), users + [Stored(data.(id := id))])
  }

  /** The `$set` of an update: a name only when it is non-empty, and always the update time, to the millisecond. */
  function ApplyUpdate(u: User, input: UpdateUserInput): (v: User)
    ensures v.firstname == if input.firstname != "" then input.firstname else u.firstname
    ensures v.lastname == if input.lastname != "" then input.lastname else u.lastname
    ensures v.updatedAt == BsonTime(input.updatedAt)
    ensures v.(firstname := u.firstname, lastname := u.lastname, updatedAt := u.updatedAt) == u
  {
    u.(firstname := if input.firstname != "" then input.firstname else u.firstname,
       lastname := if input.lastname != "" then input.lastname else u.lastname,
       updatedAt := BsonTime(input.updatedAt))
  }

  /** `UpdateOne`: the first document with the identifier gets the `$set`; no match is not an error. */
  function UpdateOne(users: seq<User>, id: ObjectId, input: UpdateUserInput): (r: seq<User>)
    ensures |r| == |users|
    ensures forall i :: 0 <= i < |users| ==> r[i] == users[i] || (users[i].id == id && r[i] == ApplyUpdate(users[i], input))
    ensures forall i :: 0 <= i < |users| ==> r[i].id == users[i].id
    ensures (forall u :: u in users ==> u.id != id) ==> r == users
    ensures AllWholeMillis(users) ==> AllWholeMillis(r)
  {
    var k := FirstMatch(users, ById(id));
    if k < |users| then
      var r := users[k := ApplyUpdate(users[k], input)];
      assert forall u :: u in r ==> u in users || u == ApplyUpdate(users[k], input);
      r
    else users
  }

  /** In a collection with unique identifiers, an update touches exactly the document with that identifier. */
  lemma UpdateOneExact(users: seq<User>, id: ObjectId, input: UpdateUserInput)
    requires UniqueIds(users)
    ensures var r := UpdateOne(users, id, input);
      forall i :: 0 <= i < |users| ==> r[i] == if users[i].id == id then ApplyUpdate(users[i], input) else users[i]
  {
    var k := FirstMatch(users, ById(id));
    forall i | 0 <= i < |users| && users[i].id == id ensures i == k {
    }
  }

  /** `DeleteOne`: the first document with the identifier is removed; no match is not an error. */
  function DeleteOne(users: seq<User>, id: ObjectId): (r: seq<User>)
    ensures |r| == |users| || |r| == |users| - 1
    ensures multiset(r) <= multiset(users)
    ensures forall u :: u in users && u.id != id ==> u in r
    ensures (forall u :: u in users ==> u.id != id) ==> r == users
    ensures UniqueIds(users) ==> UniqueIds(r) && forall u :: u in r ==> u.id != id
    ensures AllWholeMillis(users) ==> AllWholeMillis(r)
  {
    var k := FirstMatch(users, ById(id));
    if k < |users| then
      RemoveAt(users, k);
      users[..k] + users[k + 1..]
    else users
  }

  lemma RemoveAt(users: seq<User>, k: nat)
    requires k < |users|
    ensures var r := users[..k] + users[k + 1..];
      && multiset(r) <= multiset(users)
      && (forall u :: u in users && u != users[k] ==> u in r)
      && (UniqueIds(users) ==> UniqueIds(r) && forall u :: u in r ==> u.id != users[k].id)
  {
    var r := users[..k] + users[k + 1..];
    RemoveAtMultiset(users, k);
    RemoveAtIndex(users, k);
    forall u | u in users && u != users[k] ensures u in r {
      var i :| 0 <= i < |users| && users[i] == u;
      assert r[if i < k then i else i - 1] == u;
    }
    if UniqueIds(users) {
      forall i, j | 0 <= i < j < |r| ensures r[i].id != r[j].id {
        assert r[i] == users[if i < k then i else i + 1];
        assert r[j] == users[if j < k then j else j + 1];
      }
      forall u | u in r ensures u.id != users[k].id {
        var i :| 0 <= i < |r| && r[i] == u;
        assert r[i] == users[if i < k then i else i + 1];
      }
    }
  }

  lemma RemoveAtMultiset(users: seq<User>, k: nat)
    requires k < |users|
    ensures multiset(users[..k] + users[k + 1..]) + multiset{users[k]} == multiset(users)
  {
    assert users == users[..k] + [users[k]] + users[k + 1..];
  }

  lemma RemoveAtIndex(users: seq<User>, k: nat)
    requires k < |users|
    ensures var r := users[..k] + users[k + 1..];
      |r| == |users| - 1 && forall i :: 0 <= i < |r| ==> r[i] == users[if i < k then i else i + 1]
  {
  }

  /** Deleting twice is the same as deleting once. */
  lemma DeleteOneIdempotent(users: seq<User>, id: ObjectId)
    requires UniqueIds(users)
    ensures DeleteOne(DeleteOne(users, id), id) == DeleteOne(users, id)
  {
  }

  /** The documents that do not carry the identifier, in collection order. */
  function WithoutId(users: seq<User>, id: ObjectId): seq<User> {
    if users == [] then []
    else (if users[0].id == id then [] else [users[0]]) + WithoutId(users[1..], id)
  }

  lemma {:induction false} WithoutIdOfNone(users: seq<User>, id: ObjectId)
    requires forall i :: 0 <= i < |users| ==> users[i].id != id
    ensures WithoutId(users, id) == users
    decreases |users|
  {
    if users != [] {
      WithoutIdOfNone(users[1..], id);
    }
  }

  lemma {:induction false} WithoutIdAppend(a: seq<User>, b: seq<User>, id: ObjectId)
    ensures WithoutId(a + b, id) == WithoutId(a, id) + WithoutId(b, id)
    decreases |a|
  {
    if a != [] {
      WithoutIdAppend(a[1..], b, id);
      assert (a + b)[1..] == a[1..] + b;
    } else {
      assert a + b == b;
    }
  }

  /** In a collection with unique identifiers, deleting removes the document with that identifier and nothing else. */
  lemma DeleteOneRemovesOnly(users: seq<User>, id: ObjectId)
    requires UniqueIds(users)
    ensures DeleteOne(users, id) == WithoutId(users, id)
  {
    var k := FirstMatch(users, ById(id));
    if k < |users| {
      OnlyOneWithId(users, k);
      WithoutOnlyOne(users, k, id);
    } else {
      WithoutIdOfNone(users, id);
    }
  }

  lemma OnlyOneWithId(users: seq<User>, k: nat)
    requires UniqueIds(users) && k < |users|
    ensures forall i :: 0 <= i < |users| && i != k ==> users[i].id != users[k].id
  {
  }

  lemma WithoutOnlyOne(users: seq<User>, k: nat, id: ObjectId)
    requires k < |users| && users[k].id == id
    requires forall i :: 0 <= i < |users| && i != k ==> users[i].id != id
    ensures WithoutId(users, id) == users[..k] + users[k + 1..]
  {
    var a, x, b := users[..k], users[k], users[k + 1..];
    assert users == a + ([x] + b);
    forall i | 0 <= i < |a| ensures a[i].id != id {
      assert a[i] == users[i];
    }
    forall i | 0 <= i < |b| ensures b[i].id != id {
      assert b[i] == users[k + 1 + i];
    }
    WithoutMiddle(a, x, b, id);
  }

  lemma WithoutMiddle(a: seq<User>, x: User, b: seq<User>, id: ObjectId)
    requires x.id == id
    requires forall i :: 0 <= i < |a| ==> a[i].id != id
    requires forall i :: 0 <= i < |b| ==> b[i].id != id
    ensures WithoutId(a + ([x] + b), id) == a + b
  {
    calc {
      WithoutId(a + ([x] + b), id);
    == { WithoutIdAppend(a, [x] + b, id); }
      WithoutId(a, id) + WithoutId([x] + b, id);
    == { WithoutIdAppend([x], b, id); }
      WithoutId(a, id) + (WithoutId([x], id) + WithoutId(b, id));
    == { WithoutIdOfNone(a, id); WithoutIdOfNone(b, id); WithoutIdSingle(x, id); }
      a + ([] + b);
    == { assert [] + b == b; }
      a + b;
    }
  }

  lemma WithoutIdSingle(x: User, id: ObjectId)
    requires x.id == id
    ensures WithoutId([x], id) == []
  {
    assert [x][1..] == [];
  }

  // ---------------------------------------------------------------------------
  // The paginated search.

  /**
   * A non-empty query matches a document when any of the three fields contains
   * it, ignoring case; so a query longer than all three never matches.
   */
  predicate MatchesSearch(u: User, query: string)
    ensures query == "" ==> MatchesSearch(u, query)
    ensures MatchesSearch(u, query) && query != "" ==>
      |query| <= |u.firstname| || |query| <= |u.lastname| || |query| <= |u.email|
  {
    query == "" || ContainsFold(u.firstname, query) || ContainsFold(u.lastname, query) || ContainsFold(u.email, query)
  }

  lemma MatchesSearchMeans(u: User, query: string)
    ensures MatchesSearch(u, query) <==> query == "" || Occurs(u.firstname, query) || Occurs(u.lastname, query) || Occurs(u.email, query)
  {
    ContainsFoldIff(u.firstname, query);
    ContainsFoldIff(u.lastname, query);
    ContainsFoldIff(u.email, query);
  }

  /** The `$match` stage: the matching documents, each as often as it occurs, in collection order. */
  function Matched(users: seq<User>, query: string): (m: seq<User>)
    ensures |m| <= |users|
    ensures forall u :: u in m <==> u in users && MatchesSearch(u, query)
    ensures query == "" ==> m == users
  {
    if users == [] then []
    else
      var rest := Matched(users[1..], query);
      assert users == [users[0]] + users[1..];
      if MatchesSearch(users[0], query) then [users[0]] + rest else rest
  }

  /** The `$match` stage keeps each matching document as often as the collection holds it, and no other document. */
  lemma {:induction false} MatchedCounts(users: seq<User>, query: string)
    ensures forall u :: multiset(Matched(users, query))[u] == if MatchesSearch(u, query) then multiset(users)[u] else 0
  {
    if users != [] {
      MatchedCounts(users[1..], query);
      assert users == [users[0]] + users[1..];
    }
  }

  /** Component `i` of the dotted path `f` begins at position `i`. */
  predicate StartsComponent(f: string, i: int) {
    i == 0 || (0 < i <= |f| && f[i - 1] == '.')
  }

  /** The component of `f` that begins at `i` is exactly `name`. */
  predicate ComponentIs(f: string, i: nat, name: string) {
    i + |name| <= |f| && f[i..i + |name|] == name && (i + |name| == |f| || f[i + |name|] == '.')
  }

  /** The names of a database reference, which a path component may use in spite of their '$'. */
  predicate DbRefComponent(f: string, i: nat) {
    ComponentIs(f, i, "$id") || ComponentIs(f, i, "$ref") || ComponentIs(f, i, "$db")
  }

  /**
   * A `$sort` key the server accepts as a field path: not empty, no empty
   * component (no leading, trailing or doubled '.'), no component starting
   * with '$' other than a database-reference name, and no NUL character.
   */
  predicate SortPathAccepted(f: string) {
    && f != ""
    && f[|f| - 1] != '.'
    && forall i :: 0 <= i < |f| ==>
         f[i] != '\0' && (StartsComponent(f, i) ==> f[i] != '.' && (f[i] == '$' ==> DbRefComponent(f, i)))
  }

  /** Some of the paths the server refuses, and the ones the handlers use. */
  lemma SortPaths()
    ensures SortPathAccepted("created_at") && SortPathAccepted("name") && SortPathAccepted("address.$id")
    ensures !SortPathAccepted("") && !SortPathAccepted("$x") && !SortPathAccepted("a.") && !SortPathAccepted("a..b")
  {
    var r := "address.$id";
    assert r[8..11] == "$id";
    assert DbRefComponent(r, 8);
    assert SortPathAccepted(r);
    assert StartsComponent("$x", 0) && !DbRefComponent("$x", 0);
    assert StartsComponent("a..b", 2) && "a..b"[2] == '.';
  }

  /** The field the `$sort` stage sorts on: the creation time unless a field is named, so never the empty path. */
  function SortFieldOf(sortField: string): (f: string)
    ensures f != "" && (sortField != "" ==> f == sortField)
    ensures sortField == "" ==> f == "created_at"
    ensures SortPathAccepted(f) <==> sortField == "" || SortPathAccepted(sortField)
  {
    if sortField == "" then
      assert SortPathAccepted("created_at");
      "created_at"
    else sortField
  }

  /**
   * The skip the store computes, in Go's wrapping 64-bit arithmetic: the
   * 64-bit value congruent to the number of documents on the earlier pages.
   */
  function Skip(page: Int64, pageSize: Int64): (s: Int64)
    ensures (s - (page - 1) * pageSize) % Modulus64 == 0
  {
    var p := Wrap64(page - 1);
    CongruentTimes(p, page - 1, pageSize);
    CongruentTrans(Wrap64(p * pageSize), p * pageSize, (page - 1) * pageSize);
    Wrap64(p * pageSize)
  }

  /** Without overflow the skip is the number of documents on the earlier pages. */
  lemma SkipIsEarlierPages(page: Int64, pageSize: Int64)
    requires page >= 1 && pageSize >= 1 && page * pageSize <= MaxInt64
    ensures Skip(page, pageSize) == (page - 1) * pageSize
  {
    assert 0 <= (page - 1) * pageSize <= page * pageSize;
    CongruentInRange(Skip(page, pageSize), (page - 1) * pageSize);
  }

  datatype Page = Page(items: seq<User>, total: int)

  function Min(a: int, b: int): int {
    if a <= b then a else b
  }

  /** The `$match` stage followed by the `$sort` stage: the matches, in descending order on `field`. */
  function Ranked(users: seq<User>, searchQuery: string, field: string): (r: seq<User>)
    ensures multiset(r) == multiset(Matched(users, searchQuery))
    ensures |r| == |Matched(users, searchQuery)|
    ensures SortedDesc(r, field)
  {
    SortDesc(Matched(users, searchQuery), field)
  }

  /**
   * The aggregation pipeline: over the matches, a count and, separately, the
   * descending sort followed by `$skip` and `$limit`. The server checks the
   * stages in that order before running any: the sort key, then the skip and
   * the limit.
   */
  function Pipeline(users: seq<User>, searchQuery: string, field: string, skip: int, limit: int)
    : (r: Result<Page, StoreError>)
    ensures r.Ok? <==> SortPathAccepted(field) && skip >= 0 && limit >= 1
    ensures r.Err? ==> r.error == if SortPathAccepted(field) then InvalidPagination else InvalidSortField
    ensures r.Ok? ==> r.value.total == |Matched(users, searchQuery)|
    ensures r.Ok? ==>
      var sorted := Ranked(users, searchQuery, field);
      var lo := Min(skip, |sorted|);
      r.value.items == sorted[lo..Min(lo + limit, |sorted|)]
  {
    if !SortPathAccepted(field) then Err(InvalidSortField)
    else if skip < 0 || limit < 1 then Err(InvalidPagination)
    else
      var sorted := Ranked(users, searchQuery, field);
      var lo := Min(skip, |sorted|);
      Ok(Page(sorted[lo..Min(lo + limit, |sorted|)], |Matched(users, searchQuery)|))
  }

  /** A served page holds at most `limit` documents and no more than the total. */
  lemma PipelinePageSize(users: seq<User>, searchQuery: string, field: string, skip: int, limit: int)
    requires Pipeline(users, searchQuery, field, skip, limit).Ok?
    ensures var page := Pipeline(users, searchQuery, field, skip, limit).value;
      |page.items| <= limit && |page.items| <= page.total
  {
  }

  /** Every document of a served page is a match, and the page is in descending order. */
  lemma PipelinePage(users: seq<User>, searchQuery: string, field: string, skip: int, limit: int)
    requires Pipeline(users, searchQuery, field, skip, limit).Ok?
    ensures var page := Pipeline(users, searchQuery, field, skip, limit).value;
      && (forall u :: u in page.items ==> u in users && MatchesSearch(u, searchQuery))
      && SortedDesc(page.items, field)
  {
    var items := Pipeline(users, searchQuery, field, skip, limit).value.items;
    var matched := Matched(users, searchQuery);
    var sorted := Ranked(users, searchQuery, field);
    var lo := Min(skip, |sorted|);
    var hi := Min(lo + limit, |sorted|);
    assert items == sorted[lo..hi];
    SortedSlice(matched, sorted, lo, hi, field);
    assert forall u :: u in items ==> u in matched;
  }

  /** `GetUsers`: the pipeline on the chosen sort field and computed skip; `sortOrder` is accepted and ignored. */
  function GetUsers(users: seq<User>, page: Int64, pageSize: Int64, sortField: string, sortOrder: string, searchQuery: string)
    : (r: Result<Page, StoreError>)
    ensures r.Ok? <==> SortPathAccepted(SortFieldOf(sortField)) && Skip(page, pageSize) >= 0 && pageSize >= 1
    ensures r.Ok? ==> r.value.total == |Matched(users, searchQuery)| && |r.value.items| <= pageSize
  {
    Pipeline(users, searchQuery, SortFieldOf(sortField), Skip(page, pageSize), pageSize)
  }

  /** A slice of a descending sort of the matches is descending and holds only matches. */
  lemma SortedSlice(matched: seq<User>, s: seq<User>, lo: int, hi: int, field: string)
    requires 0 <= lo <= hi <= |s| && SortedDesc(s, field) && multiset(s) == multiset(matched)
    ensures SortedDesc(s[lo..hi], field)
    ensures forall u :: u in s[lo..hi] ==> u in matched
  {
    var t := s[lo..hi];
    forall i, j | 0 <= i < j < |t| ensures KeyLe(KeyOf(t[j], field), KeyOf(t[i], field)) {
      assert t[i] == s[lo + i] && t[j] == s[lo + j];
    }
    forall u | u in t ensures u in matched {
      assert u in s;
      assert u in multiset(s);
    }
  }

  /** The requested direction plays no part. */
  lemma SortOrderIgnored(users: seq<User>, page: Int64, pageSize: Int64, sortField: string, a: string, b: string, q: string)
    ensures GetUsers(users, page, pageSize, sortField, a, q) == GetUsers(users, page, pageSize, sortField, b, q)
  {
  }

  /** The sort is always descending, on the creation time when no field is named. */
  lemma GetUsersSortsDescending(users: seq<User>, page: Int64, pageSize: Int64, sortField: string, sortOrder: string, q: string)
    requires GetUsers(users, page, pageSize, sortField, sortOrder, q).Ok?
    ensures SortedDesc(GetUsers(users, page, pageSize, sortField, sortOrder, q).value.items, SortFieldOf(sortField))
    ensures sortField == "" ==> SortedDesc(GetUsers(users, page, pageSize, sortField, sortOrder, q).value.items, "created_at")
  {
    PipelinePage(users, q, SortFieldOf(sortField), Skip(page, pageSize), pageSize);
  }

  /** Without overflow, a request is served exactly when the page is at least 1 and the sort key is accepted. */
  lemma GetUsersServed(users: seq<User>, page: Int64, pageSize: Int64, sortField: string, sortOrder: string, q: string)
    requires pageSize >= 1 && page * pageSize <= MaxInt64 && page * pageSize >= MinInt64 + pageSize
    ensures GetUsers(users, page, pageSize, sortField, sortOrder, q).Ok? <==>
      page >= 1 && (sortField == "" || SortPathAccepted(sortField))
  {
    if page >= 1 {
      SkipIsEarlierPages(page, pageSize);
    } else {
      SkipBelowFirstPage(page, pageSize);
    }
  }

  /**
   * Without overflow, a served page holds at most `pageSize` matches and is the
   * slice of the sorted matches that starts after the earlier pages; the total
   * counts all matches, whatever the page.
   */
  lemma GetUsersPage(users: seq<User>, page: Int64, pageSize: Int64, sortField: string, sortOrder: string, q: string)
    requires page >= 1 && pageSize >= 1 && page * pageSize <= MaxInt64
    requires SortPathAccepted(SortFieldOf(sortField))
    ensures 0 <= (page - 1) * pageSize
    ensures var sorted := Ranked(users, q, SortFieldOf(sortField));
      var lo := Min((page - 1) * pageSize, |sorted|);
      var hi := Min(lo + pageSize, |sorted|);
      && lo <= hi <= lo + pageSize
      && GetUsers(users, page, pageSize, sortField, sortOrder, q) == Ok(Page(sorted[lo..hi], |Matched(users, q)|))
  {
    EarlierPagesSkipped(users, page, pageSize, sortField, sortOrder, q);
  }

  lemma EarlierPagesSkipped(users: seq<User>, page: Int64, pageSize: Int64, sortField: string, sortOrder: string, q: string)
    requires page >= 1 && pageSize >= 1 && page * pageSize <= MaxInt64
    ensures 0 <= (page - 1) * pageSize
    ensures GetUsers(users, page, pageSize, sortField, sortOrder, q)
         == Pipeline(users, q, SortFieldOf(sortField), (page - 1) * pageSize, pageSize)
  {
    SkipIsEarlierPages(page, pageSize);
  }

  /** Without overflow, a page below 1 gives a negative skip. */
  lemma SkipBelowFirstPage(page: Int64, pageSize: Int64)
    requires page <= 0 && pageSize >= 1 && page * pageSize >= MinInt64 + pageSize
    ensures Skip(page, pageSize) < 0
  {
    assert (page - 1) * pageSize == page * pageSize - pageSize;
  }

  /** The total counts the matches, whichever page is asked for. */
  lemma TotalIndependentOfPage(users: seq<User>, p1: Int64, p2: Int64, pageSize: Int64, sortField: string, sortOrder: string, q: string)
    requires GetUsers(users, p1, pageSize, sortField, sortOrder, q).Ok?
    requires GetUsers(users, p2, pageSize, sortField, sortOrder, q).Ok?
    ensures GetUsers(users, p1, pageSize, sortField, sortOrder, q).value.total
         == GetUsers(users, p2, pageSize, sortField, sortOrder, q).value.total
  {
  }

  /** Page 0, which most non-numeric page parameters become, is refused by the server. */
  lemma PageZeroRefused(users: seq<User>, pageSize: Int64, sortField: string, sortOrder: string, q: string)
    requires pageSize >= 1
    ensures GetUsers(users, 0, pageSize, sortField, sortOrder, q)
         == Err(if SortPathAccepted(SortFieldOf(sortField)) then InvalidPagination else InvalidSortField)
  {
  }

  /** A sort key the server refuses fails the whole request, whatever page is asked for. */
  lemma SortFieldRefused(users: seq<User>, page: Int64, pageSize: Int64, sortField: string, sortOrder: string, q: string)
    requires sortField != "" && !SortPathAccepted(sortField)
    ensures GetUsers(users, page, pageSize, sortField, sortOrder, q) == Err(InvalidSortField)
  {
  }

  /** Without overflow, a page starting past the last match is empty. */
  lemma PastTheEndIsEmpty(users: seq<User>, page: Int64, pageSize: Int64, sortField: string, sortOrder: string, q: string)
    requires page >= 1 && pageSize >= 1 && page * pageSize <= MaxInt64
    requires SortPathAccepted(SortFieldOf(sortField))
    requires (page - 1) * pageSize >= |Matched(users, q)|
    ensures GetUsers(users, page, pageSize, sortField, sortOrder, q) == Ok(Page([], |Matched(users, q)|))
  {
    SkipIsEarlierPages(page, pageSize);
  }

  // ---------------------------------------------------------------------------
  // The store object.

  class UserStore {
    var users: seq<User>

    /** The identifiers are unique and every instant is a whole millisecond. */
    ghost predicate Valid()
      reads this
    {
      UniqueIds(users) && AllWholeMillis(users)
    }

    /** The store over the collection as the database holds it when the server starts. */
    constructor (initial: seq<User>)
      requires UniqueIds(initial) && AllWholeMillis(initial)
      ensures Valid() && users == initial
    {
      users := initial;
    }

    method GetUser(identifier: string) returns (r: Result<User, StoreError>)
      ensures r == FindUser(users, identifier)
    {
      var filter := Classify(identifier);
      if filter.Err? {
        return Err(filter.error);
      }
      var k := FirstMatch(users, filter.value);
      if k == |users| {
        return Err(NoDocuments);
      }
      r := Ok(users[k]);
    }

    method CreateUser(data: User, freshId: ObjectId) returns (r: Result<User, StoreError>)
      requires Valid()
      modifies this
      ensures Valid()
      ensures Step(r, users) == InsertOne(old(users), data, freshId)
    {
      var step := InsertOne(users, data, freshId);
      users := step.users;
      r := step.result;
    }

    method UpdateUser(id: string, input: UpdateUserInput, now: Time) returns (r: Outcome<StoreError>)
      requires Valid()
      modifies this
      ensures Valid()
      ensures r.Fail? <==> !IsObjectIdHex(id)
      ensures r.Fail? ==> r.error == InvalidHex && users == old(users)
      ensures r.Pass? ==> ObjectIdFromHex(id).Some?
      ensures r.Pass? ==> users == UpdateOne(old(users), ObjectIdFromHex(id).value, input.(updatedAt := now))
    {
      var objectId := ObjectIdFromHex(id);
      if objectId.None? {
        return Fail(InvalidHex);
      }
      var stamped := input.(updatedAt := now);
      users := UpdateOne(users, objectId.value, stamped);
      r := Pass;
    }

    method DeleteUser(id: string) returns (r: Outcome<StoreError>)
      requires Valid()
      modifies this
      ensures Valid()
      ensures r.Fail? <==> !IsObjectIdHex(id)
      ensures r.Fail? ==> r.error == InvalidHex && users == old(users)
      ensures r.Pass? ==> ObjectIdFromHex(id).Some?
      ensures r.Pass? ==> users == DeleteOne(old(users), ObjectIdFromHex(id).value)
    {
      var objectId := ObjectIdFromHex(id);
      if objectId.None? {
        return Fail(InvalidHex);
      }
      users := DeleteOne(users, objectId.value);
      r := Pass;
    }

    method GetUsers(page: Int64, pageSize: Int64, sortField: string, sortOrder: string, searchQuery: string)
      returns (r: Result<Page, StoreError>)
      ensures r == Pipeline(users, searchQuery, SortFieldOf(sortField), Skip(page, pageSize), pageSize)
    {
      var sortOn := if sortField != "" then sortField else "created_at";
      var skip := Wrap64(Wrap64(page - 1) * pageSize);
      r := Pipeline(users, searchQuery, sortOn, skip, pageSize);
    }
  }

  /**
   * A created user is found again by the spelling of its new identifier: the
   * returned record as stored, so with its instants cut to the millisecond.
   */
  lemma CreateThenFind(users: seq<User>, data: User, freshId: ObjectId)
    requires UniqueIds(users)
    requires InsertOne(users, data, freshId).result.Ok?
    ensures var step := InsertOne(users, data, freshId);
      FindUser(step.users, Hex(step.result.value.id)) == Ok(Stored(step.result.value))
  {
    var step := InsertOne(users, data, freshId);
    var u := Stored(step.result.value);
    assert step.users[|users|] == u;
    HexIsHexDigits(u.id);
    FindById(step.users, |users|, Hex(u.id));
  }
}
