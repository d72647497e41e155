/**
 * The order the database sorts documents in, for the fields a user document
 * has, and a descending sort over it. Values of different kinds compare by
 * kind first (a missing field as null, then strings, then object ids, then
 * dates); strings compare character by character, object ids byte by byte.
 */
module BsonOrder {
  import opened ObjectIds
  import opened Types

  datatype SortKey = Missing | Text(s: string) | Oid(id: ObjectId) | Date(t: Time)

  /** The names of the fields a stored user document has. */
  const StoredFields: set<string> := {"_id", "firstname", "lastname", "email", "encrypted_password", "created_at", "updated_at"}

  /**
   * The value of a user document under a field path. Only the seven stored
   * fields have one; any other path, dotted or not, is missing from every
   * document.
   */
  function KeyOf(u: User, field: string): (k: SortKey)
    ensures k.Missing? <==> field !in StoredFields
  {
    if field == "_id" then Oid(u.id)
    else if field == "firstname" then Text(u.firstname)
    else if field == "lastname" then Text(u.lastname)
    else if field == "email" then Text(u.email)
    else if field == "encrypted_password" then Text(u.encryptedPassword)
    else if field == "created_at" then Date(u.createdAt)
    else if field == "updated_at" then Date(u.updatedAt)
    else Missing
  }

  function Rank(k: SortKey): nat {
    match k
    case Missing => 0
    case Text(_) => 1
    case Oid(_) => 2
    case Date(_) => 3
  }

  function Codes(s: string): (c: seq<int>)
    ensures |c| == |s|
  {
    seq(|s|, i requires 0 <= i < |s| => s[i] as int)
  }

  /** Lexicographic order on sequences of numbers; a proper prefix comes first. */
  predicate LexLe(a: seq<int>, b: seq<int>) {
    a == [] || (b != [] && (a[0] < b[0] || (a[0] == b[0] && LexLe(a[1..], b[1..]))))
  }

  /** Kind first, then the value; every key is at most itself. */
  predicate KeyLe(a: SortKey, b: SortKey)
    ensures a == b ==> KeyLe(a, b)
  {
    if Rank(a) != Rank(b) then Rank(a) < Rank(b)
    else match (a, b)
      case (Text(x), Text(y)) =>
        LexLeRefl(Codes(x));
        LexLe(Codes(x), Codes(y))
      case (Oid(x), Oid(y)) =>
        LexLeRefl(x);
        LexLe(x, y)
      case (Date(x), Date(y)) => x <= y
      case _ => true
  }

  lemma {:induction false} LexLeAntisym(a: seq<int>, b: seq<int>)
    ensures LexLe(a, b) && LexLe(b, a) ==> a == b
    decreases |a|
  {
    if a != [] && b != [] && a[0] == b[0] {
      LexLeAntisym(a[1..], b[1..]);
      assert a == [a[0]] + a[1..] && b == [b[0]] + b[1..];
    }
  }

  lemma {:induction false} LexLeRefl(a: seq<int>)
    ensures LexLe(a, a)
    decreases |a|
  {
    if a != [] {
      LexLeRefl(a[1..]);
    }
  }

  lemma CodesInjective(x: string, y: string)
    ensures Codes(x) == Codes(y) ==> x == y
  {
    if Codes(x) == Codes(y) {
      forall i | 0 <= i < |x| ensures x[i] == y[i] {
        assert Codes(x)[i] == Codes(y)[i];
      }
    }
  }

  lemma {:induction false} LexLeTotal(a: seq<int>, b: seq<int>)
    ensures LexLe(a, b) || LexLe(b, a)
    decreases |a|
  {
    if a != [] && b != [] && a[0] == b[0] {
      LexLeTotal(a[1..], b[1..]);
    }
  }

  lemma {:induction false} LexLeTrans(a: seq<int>, b: seq<int>, c: seq<int>)
    requires LexLe(a, b) && LexLe(b, c)
    ensures LexLe(a, c)
    decreases |a|
  {
    if a != [] && a[0] == b[0] && b[0] == c[0] {
      LexLeTrans(a[1..], b[1..], c[1..]);
    }
  }

  lemma KeyLeTotal(a: SortKey, b: SortKey)
    ensures KeyLe(a, b) || KeyLe(b, a)
  {
    match (a, b)
    case (Text(x), Text(y)) => LexLeTotal(Codes(x), Codes(y));
    case (Oid(x), Oid(y)) => LexLeTotal(x, y);
    case _ =>
  }

  /** Two keys each at most the other are the same key. */
  lemma KeyLeAntisym(a: SortKey, b: SortKey)
    requires KeyLe(a, b) && KeyLe(b, a)
    ensures a == b
  {
    match (a, b)
    case (Text(x), Text(y)) =>
      LexLeAntisym(Codes(x), Codes(y));
      CodesInjective(x, y);
    case (Oid(x), Oid(y)) => LexLeAntisym(x, y);
    case _ =>
  }

  lemma KeyLeTrans(a: SortKey, b: SortKey, c: SortKey)
    requires KeyLe(a, b) && KeyLe(b, c)
    ensures KeyLe(a, c)
  {
    if Rank(a) == Rank(b) == Rank(c) {
      match (a, b, c)
      case (Text(x), Text(y), Text(z)) => LexLeTrans(Codes(x), Codes(y), Codes(z));
      case (Oid(x), Oid(y), Oid(z)) => LexLeTrans(x, y, z);
      case _ =>
    }
  }

  /** Every document comes before all those whose key is not greater than its own. */
  ghost predicate SortedDesc(s: seq<User>, field: string) {
    forall i, j :: 0 <= i < j < |s| ==> KeyLe(KeyOf(s[j], field), KeyOf(s[i], field))
  }

  /** Puts `u` in front of the first document whose key is not greater than its own. */
  function InsertDesc(u: User, s: seq<User>, field: string): (r: seq<User>)
    requires SortedDesc(s, field)
    ensures multiset(r) == multiset(s) + multiset{u}
    ensures SortedDesc(r, field)
    ensures r != [] && (r[0] == u || (s != [] && r[0] == s[0]))
  {
    if s == [] then [u]
    else if KeyLe(KeyOf(s[0], field), KeyOf(u, field)) then
      InsertFront(u, s, field);
      [u] + s
    else
      KeyLeTotal(KeyOf(s[0], field), KeyOf(u, field));
      var rest := InsertDesc(u, s[1..], field);
      assert s == [s[0]] + s[1..];
      ConsSorted(s[0], rest, field);
      [s[0]] + rest
  }

  lemma InsertFront(u: User, s: seq<User>, field: string)
    requires SortedDesc(s, field) && s != [] && KeyLe(KeyOf(s[0], field), KeyOf(u, field))
    ensures SortedDesc([u] + s, field)
  {
    var r := [u] + s;
    forall i, j | 0 <= i < j < |r| ensures KeyLe(KeyOf(r[j], field), KeyOf(r[i], field)) {
      if i == 0 && j > 1 {
        KeyLeTrans(KeyOf(s[j - 1], field), KeyOf(s[0], field), KeyOf(u, field));
      }
    }
  }

  lemma ConsSorted(x: User, r: seq<User>, field: string)
    requires SortedDesc(r, field)
    requires r != [] ==> KeyLe(KeyOf(r[0], field), KeyOf(x, field))
    ensures SortedDesc([x] + r, field)
  {
    var t := [x] + r;
    forall i, j | 0 <= i < j < |t| ensures KeyLe(KeyOf(t[j], field), KeyOf(t[i], field)) {
      if i == 0 && j > 1 {
        KeyLeTrans(KeyOf(r[j - 1], field), KeyOf(r[0], field), KeyOf(x, field));
      }
    }
  }

  /** The `$sort` stage with direction -1: a descending permutation of its input. */
  function SortDesc(s: seq<User>, field: string): (r: seq<User>)
    ensures multiset(r) == multiset(s)
    ensures |r| == |s|
    ensures SortedDesc(r, field)
  {
    if s == [] then []
    else
      var rest := SortDesc(s[1..], field);
      assert s == [s[0]] + s[1..];
      var r := InsertDesc(s[0], rest, field);
      assert |r| == |multiset(r)|;
      r
  }
}
