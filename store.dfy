/** The in-memory items, users and contacts collections and the route
    handlers that read and change them, with the HTTP layer stripped away. */
module InMemoryStore {
  import opened Text
  import opened IdAllocation

  datatype Item = Item(id: int, name: Option<string>, description: Option<string>)
  datatype ItemCreateDto = ItemCreateDto(name: Option<string>, description: Option<string>)

  datatype User = User(id: int, username: Option<string>, email: Option<string>)
  datatype UserCreateDto = UserCreateDto(username: Option<string>, email: Option<string>)

  /** ReceivedAt is the clock reading the caller passes in. */
  datatype ContactSubmission =
    ContactSubmission(id: int, name: Option<string>, email: Option<string>, message: Option<string>, receivedAt: int)
  datatype ContactCreateDto = ContactCreateDto(name: Option<string>, email: Option<string>, message: Option<string>)

  /** What reading a JSON body gives: a parse failure (an exception, caught),
      the JSON literal null, or a DTO. */
  datatype JsonBody<T> = Malformed | Null | Parsed(dto: T)

  /** A POST /contact request: a form body (its name=value pairs in the order
      sent) or anything else, which is read as JSON. */
  datatype ContactRequest = Form(fields: seq<(string, string)>) | Json(body: JsonBody<ContactCreateDto>)

  /** The result of a handler, by status code. */
  datatype Response<T> =
    | Ok(value: T)
    | Created(value: T)
    | NoContent
    | NotFound
    | BadRequest(error: Option<string>)
    | Conflict(reason: string)

  const UsernameRequired: string := "Username is required"
  const UsernameExists: string := "Username already exists"
  const QueryRequired: string := "username query is required"

  function ItemId(x: Item): int { x.id }
  function UserId(u: User): int { u.id }
  function ContactId(c: ContactSubmission): int { c.id }

  const SeedItems: seq<Item> := [
    Item(1, Some("Item 1"), Some("First item")),
    Item(2, Some("Item 2"), Some("Second item"))
  ]

  const SeedUsers: seq<User> := [
    User(1, Some("alice"), Some("alice@example.com")),
    User(2, Some("bob"), Some("bob@example.com"))
  ]

  /** The values the form collection holds under `key`: field names are
      compared ignoring case, and values keep the order they were sent in. */
  function FormValues(fields: seq<(string, string)>, key: string): (r: seq<string>)
    ensures |r| <= |fields|
    ensures forall v :: v in r <==> exists i :: 0 <= i < |fields| && Fold(fields[i].0) == Fold(key) && fields[i].1 == v
  {
    if fields == [] then []
    else
      var rest := FormValues(fields[1..], key);
      assert forall v :: v in rest <==> exists i :: 1 <= i < |fields| && Fold(fields[i].0) == Fold(key) && fields[i].1 == v by {
        forall v | v in rest ensures exists i :: 1 <= i < |fields| && Fold(fields[i].0) == Fold(key) && fields[i].1 == v {
          var j :| 0 <= j < |fields[1..]| && Fold(fields[1..][j].0) == Fold(key) && fields[1..][j].1 == v;
          assert fields[j + 1] == fields[1..][j];
        }
        forall v, i | 1 <= i < |fields| && Fold(fields[i].0) == Fold(key) && fields[i].1 == v ensures v in rest {
          assert fields[1..][i - 1] == fields[i];
        }
      }
      (if Fold(fields[0].0) == Fold(key) then [fields[0].1] else []) + rest
  }

  /** The values StringValues.ToString joins: it skips null and empty ones
      and keeps the others in order. */
  function NonEmpty(values: seq<string>): (r: seq<string>)
    ensures |r| <= |values|
    ensures forall v :: v in r <==> v in values && v != ""
  {
    if values == [] then []
    else (if values[0] == "" then [] else [values[0]]) + NonEmpty(values[1..])
  }

  lemma {:induction false} NonEmptyAppend(a: seq<string>, b: seq<string>)
    ensures NonEmpty(a + b) == NonEmpty(a) + NonEmpty(b)
  {
    if a == [] {
      assert a + b == b;
    } else {
      assert (a + b)[0] == a[0];
      assert (a + b)[1..] == a[1..] + b;
      NonEmptyAppend(a[1..], b);
    }
  }

  /** The form collection keeps send order: the values held under a name in
      a concatenation of pairs are those of the first part, then those of the
      second. */
  lemma {:induction false} FormValuesAppend(a: seq<(string, string)>, b: seq<(string, string)>, key: string)
    ensures FormValues(a + b, key) == FormValues(a, key) + FormValues(b, key)
  {
    if a == [] {
      assert a + b == b;
    } else {
      assert (a + b)[0] == a[0];
      assert (a + b)[1..] == a[1..] + b;
      FormValuesAppend(a[1..], b, key);
    }
  }

  /** form[key].ToString(): the non-empty values held under the name, joined
      by commas; the empty string when the field is missing or every value
      sent for it is empty. */
  function FormValue(fields: seq<(string, string)>, key: string): (r: string)
    ensures r == "" <==> forall v :: v in FormValues(fields, key) ==> v == ""
  {
    var parts := NonEmpty(FormValues(fields, key));
    assert parts != [] ==> parts[0] in parts && |Join(",", parts)| >= |parts[0]|;
    Join(",", parts)
  }

  /** A pair with an empty value, wherever it is sent, does not change what
      any field reads as. */
  lemma FormValueSkipsEmptyValue(a: seq<(string, string)>, name: string, b: seq<(string, string)>, key: string)
    ensures FormValue(a + [(name, "")] + b, key) == FormValue(a + b, key)
  {
    var e := [(name, "")];
    assert e[1..] == [];
    FormValuesAppend(a, e, key);
    FormValuesAppend(a + e, b, key);
    FormValuesAppend(a, b, key);
    var va, ve, vb := FormValues(a, key), FormValues(e, key), FormValues(b, key);
    assert ve == [] || ve == [""];
    assert NonEmpty(ve) == [] by {
      if ve == [""] { assert ve[1..] == []; }
    }
    NonEmptyAppend(va, ve);
    NonEmptyAppend(va + ve, vb);
    NonEmptyAppend(va, vb);
    assert FormValues(a + e + b, key) == va + ve + vb;
    assert NonEmpty(va + ve + vb) == NonEmpty(va) + NonEmpty(vb) == NonEmpty(va + vb);
  }

  /** name=&name=Jo reads as "Jo"; name=Ann&Name=Jo reads as "Ann,Jo". */
  lemma FormValueOfRepeatedField()
    ensures FormValue([("name", ""), ("name", "Jo")], "name") == "Jo"
    ensures FormValue([("name", "Ann"), ("Name", "Jo")], "name") == "Ann,Jo"
  {
    var f1 := [("name", ""), ("name", "Jo")];
    assert f1[1..] == [("name", "Jo")] && f1[1..][1..] == [];
    assert FormValues(f1, "name") == ["", "Jo"];
    assert ["", "Jo"][1..] == ["Jo"] && ["Jo"][1..] == [];
    assert NonEmpty(["", "Jo"]) == ["Jo"];
    var f2 := [("name", "Ann"), ("Name", "Jo")];
    assert f2[1..] == [("Name", "Jo")] && f2[1..][1..] == [];
    assert Fold("Name") == Fold("name");
    assert FormValues(f2, "name") == ["Ann", "Jo"];
    assert ["Ann", "Jo"][1..] == ["Jo"];
    assert NonEmpty(["Ann", "Jo"]) == ["Ann", "Jo"];
    assert ["Ann", "Jo"][1..] == ["Jo"];
  }

  /** A form field is found whatever the case of its name. */
  lemma {:induction false} FormValueIgnoresCase(fields: seq<(string, string)>, a: string, b: string)
    requires Fold(a) == Fold(b)
    ensures FormValue(fields, a) == FormValue(fields, b)
  {
    FormValuesIgnoreCase(fields, a, b);
  }

  lemma {:induction false} FormValuesIgnoreCase(fields: seq<(string, string)>, a: string, b: string)
    requires Fold(a) == Fold(b)
    ensures FormValues(fields, a) == FormValues(fields, b)
  {
    if fields != [] {
      FormValuesIgnoreCase(fields[1..], a, b);
    }
  }

  /** A field sent once is read back verbatim; a field not sent reads as "". */
  lemma FormValueOfSingleField(name: string, value: string, key: string)
    ensures Fold(name) == Fold(key) ==> FormValue([(name, value)], key) == value
    ensures Fold(name) != Fold(key) ==> FormValue([(name, value)], key) == ""
  {
    assert [(name, value)][1..] == [];
    assert [value][1..] == [];
  }

  /** users.Any(u => string.Equals(u.Username, name, OrdinalIgnoreCase)) */
  predicate UsernameHeld(users: seq<User>, name: Option<string>) {
    exists k :: 0 <= k < |users| && EqualsIgnoreCase(users[k].username, name)
  }

  /** The same check, skipping the users whose id is `id`. */
  predicate UsernameHeldByOther(users: seq<User>, id: int, name: Option<string>) {
    exists k :: 0 <= k < |users| && users[k].id != id && EqualsIgnoreCase(users[k].username, name)
  }

  /** No two users hold the same non-null username, ignoring case. */
  ghost predicate UsernamesDistinct(users: seq<User>) {
    forall i, j :: 0 <= i < j < |users| && users[i].username.Some? && users[j].username.Some? ==>
      !EqualsIgnoreCase(users[i].username, users[j].username)
  }

  predicate MatchesQuery(u: User, query: string) {
    u.username.Some? && ContainsIgnoreCase(u.username.value, query)
  }

  /** users.Where(u => u.Username is not null && u.Username.Contains(query,
      OrdinalIgnoreCase)): exactly the matching users. */
  function MatchingUsers(users: seq<User>, query: string): (r: seq<User>)
    ensures |r| <= |users|
    ensures forall u :: u in r <==> u in users && MatchesQuery(u, query)
  {
    if users == [] then []
    else (if MatchesQuery(users[0], query) then [users[0]] else []) + MatchingUsers(users[1..], query)
  }

  /** The search keeps list order: searching a concatenation gives the
      matches of the first part followed by those of the second. */
  lemma {:induction false} MatchingUsersAppend(a: seq<User>, b: seq<User>, query: string)
    ensures MatchingUsers(a + b, query) == MatchingUsers(a, query) + MatchingUsers(b, query)
  {
    if a == [] {
      assert a + b == b;
    } else {
      assert (a + b)[0] == a[0];
      assert (a + b)[1..] == a[1..] + b;
      MatchingUsersAppend(a[1..], b, query);
    }
  }

  /** Creating a user whose username nobody holds keeps usernames distinct. */
  lemma CreateKeepsUsernamesDistinct(users: seq<User>, u: User)
    requires UsernamesDistinct(users) && !UsernameHeld(users, u.username)
    ensures UsernamesDistinct(users + [u])
  {
    var s := users + [u];
    forall i, j | 0 <= i < j < |s| && s[i].username.Some? && s[j].username.Some?
      ensures !EqualsIgnoreCase(s[i].username, s[j].username)
    {
      if j == |users| {
        assert !EqualsIgnoreCase(users[i].username, u.username);
      }
    }
  }

  /** Renaming a user to a name no other user holds keeps usernames distinct. */
  lemma RenameKeepsUsernamesDistinct(users: seq<User>, i: nat, u: User)
    requires UsernamesDistinct(users) && Distinct(IdsOf(users, UserId))
    requires i < |users| && u.id == users[i].id && !UsernameHeldByOther(users, u.id, u.username)
    ensures UsernamesDistinct(users[i := u])
  {
    var s := users[i := u];
    forall a, b | 0 <= a < b < |s| && s[a].username.Some? && s[b].username.Some?
      ensures !EqualsIgnoreCase(s[a].username, s[b].username)
    {
      if a == i {
        assert users[b].id != u.id by {
          assert IdsOf(users, UserId)[b] != IdsOf(users, UserId)[i];
        }
      } else if b == i {
        assert users[a].id != u.id by {
          assert IdsOf(users, UserId)[a] != IdsOf(users, UserId)[i];
        }
      }
    }
  }

  /** The conflict check on update skips the user's own id, so a user may
      rename to their own username in a different case. */
  lemma RenameToOwnNameInOtherCase(users: seq<User>, i: nat, name: string)
    requires UsernamesDistinct(users) && Distinct(IdsOf(users, UserId))
    requires i < |users| && users[i].username.Some? && Fold(users[i].username.value) == Fold(name)
    ensures !UsernameHeldByOther(users, users[i].id, Some(name))
  {
    forall k | 0 <= k < |users| && users[k].id != users[i].id
      ensures !EqualsIgnoreCase(users[k].username, Some(name))
    {
      if users[k].username.Some? {
        assert k != i;
        assert !EqualsIgnoreCase(users[k].username, users[i].username);
      }
    }
  }

  lemma RemoveKeepsUsernamesDistinct(users: seq<User>, i: nat)
    requires UsernamesDistinct(users) && i < |users|
    ensures UsernamesDistinct(RemoveAt(users, i))
  {
    var s := RemoveAt(users, i);
    forall a, b | 0 <= a < b < |s| && s[a].username.Some? && s[b].username.Some?
      ensures !EqualsIgnoreCase(s[a].username, s[b].username)
    {
      var a' := if a < i then a else a + 1;
      var b' := if b < i then b else b + 1;
      assert s[a] == users[a'] && s[b] == users[b'] && a' < b';
    }
  }

  class Store {
    var items: seq<Item>
    var users: seq<User>
    var contacts: seq<ContactSubmission>

    /** Ids are unique in each collection and usernames are unique ignoring
        case. */
    ghost predicate Valid()
      reads this
    {
      && Distinct(IdsOf(items, ItemId))
      && Distinct(IdsOf(users, UserId))
      && Distinct(IdsOf(contacts, ContactId))
      && UsernamesDistinct(users)
    }

    /** The seeded lists: two items, the users alice and bob, no contacts. */
    constructor ()
      ensures Valid()
      ensures items == SeedItems && users == SeedUsers && contacts == []
    {
      items := SeedItems;
      users := SeedUsers;
      contacts := [];
      assert Fold("alice")[0] != Fold("bob")[0];
      assert IdsOf(SeedItems, ItemId) == [1, 2];
      assert IdsOf(SeedUsers, UserId) == [1, 2];
    }

    // ---- items ----

    /** GET /api/items */
    method GetItems() returns (r: Response<seq<Item>>)
      ensures r == Ok(items)
    {
      r := Ok(items);
    }

    /** GET /api/items/{id} */
    method GetItem(id: int) returns (r: Response<Item>)
      ensures r.Ok? || r.NotFound?
      ensures r.NotFound? <==> id !in IdsOf(items, ItemId)
      ensures r.Ok? ==> r.value in items && r.value.id == id
    {
      match IndexOf(IdsOf(items, ItemId), id)
      case None => r := NotFound;
      case Some(k) => r := Ok(items[k]);
    }

    /** POST /api/items: the id is always the next one, never the caller's. */
    method PostItem(dto: ItemCreateDto) returns (r: Response<Item>)
      requires Valid()
      modifies this`items
      ensures Valid()
      ensures r == Created(Item(NextId(IdsOf(old(items), ItemId)), dto.name, dto.description))
      ensures items == old(items) + [r.value]
    {
      var item := Item(NextId(IdsOf(items, ItemId)), dto.name, dto.description);
      IdsOfAppend(items, item, ItemId);
      AppendNextIdKeepsDistinct(IdsOf(items, ItemId));
      items := items + [item];
      r := Created(item);
    }

    /** PUT /api/items/{id}: replaces the name and description of the record
        with that id, in place. */
    method PutItem(id: int, dto: ItemCreateDto) returns (r: Response<()>)
      requires Valid()
      modifies this`items
      ensures Valid()
      ensures r.NotFound? <==> id !in IdsOf(old(items), ItemId)
      ensures r.NotFound? ==> items == old(items)
      ensures r.NoContent? || r.NotFound?
      ensures r.NoContent? ==>
        exists k :: 0 <= k < |old(items)| && old(items)[k].id == id &&
          items == old(items)[k := Item(id, dto.name, dto.description)]
    {
      match IndexOf(IdsOf(items, ItemId), id)
      case None => r := NotFound;
      case Some(k) =>
        var updated := Item(id, dto.name, dto.description);
        assert IdsOf(items, ItemId)[k] == id;
        IdsOfUpdate(items, k, updated, ItemId);
        items := items[k := updated];
        r := NoContent;
    }

    /** DELETE /api/items/{id}: removes the record with that id; the others
        keep their order. */
    method DeleteItem(id: int) returns (r: Response<()>)
      requires Valid()
      modifies this`items
      ensures Valid()
      ensures r.NotFound? <==> id !in IdsOf(old(items), ItemId)
      ensures r.NotFound? ==> items == old(items)
      ensures r.NoContent? || r.NotFound?
      ensures r.NoContent? ==>
        exists k :: 0 <= k < |old(items)| && old(items)[k].id == id && items == RemoveAt(old(items), k)
      ensures r.NoContent? ==> |items| == |old(items)| - 1 && id !in IdsOf(items, ItemId)
    {
      match IndexOf(IdsOf(items, ItemId), id)
      case None => r := NotFound;
      case Some(k) =>
        IdsOfRemoveAt(items, k, ItemId);
        RemoveAtKeepsDistinct(IdsOf(items, ItemId), k);
        items := RemoveAt(items, k);
        r := NoContent;
    }

    // ---- users ----

    /** GET /api/users */
    method GetUsers() returns (r: Response<seq<User>>)
      ensures r == Ok(users)
    {
      r := Ok(users);
    }

    /** GET /api/users/search?username=q: a blank query is refused;
        otherwise the users whose username contains q, ignoring case, in
        list order. */
    method SearchUsers(username: Option<string>) returns (r: Response<seq<User>>)
      ensures IsNullOrWhiteSpace(username) ==> r == BadRequest(Some(QueryRequired))
      ensures !IsNullOrWhiteSpace(username) ==> r == Ok(MatchingUsers(users, username.value))
    {
      if IsNullOrWhiteSpace(username) {
        r := BadRequest(Some(QueryRequired));
      } else {
        r := Ok(MatchingUsers(users, username.value));
      }
    }

    /** GET /api/users/{id} */
    method GetUser(id: int) returns (r: Response<User>)
      ensures r.Ok? || r.NotFound?
      ensures r.NotFound? <==> id !in IdsOf(users, UserId)
      ensures r.Ok? ==> r.value in users && r.value.id == id
    {
      match IndexOf(IdsOf(users, UserId), id)
      case None => r := NotFound;
      case Some(k) => r := Ok(users[k]);
    }

    /** POST /api/users: a blank username is a bad request, a username held
        by anyone (ignoring case) a conflict; otherwise the user is appended
        with the next id. */
    method PostUser(dto: UserCreateDto) returns (r: Response<User>)
      requires Valid()
      modifies this`users
      ensures Valid()
      ensures IsNullOrWhiteSpace(dto.username) ==> r == BadRequest(Some(UsernameRequired))
      ensures !IsNullOrWhiteSpace(dto.username) && UsernameHeld(old(users), dto.username) ==>
        r == Conflict(UsernameExists)
      ensures !r.Created? ==> users == old(users)
      ensures !IsNullOrWhiteSpace(dto.username) && !UsernameHeld(old(users), dto.username) ==>
        r == Created(User(NextId(IdsOf(old(users), UserId)), dto.username, dto.email)) &&
        users == old(users) + [r.value]
    {
      if IsNullOrWhiteSpace(dto.username) {
        return BadRequest(Some(UsernameRequired));
      }
      if UsernameHeld(users, dto.username) {
        return Conflict(UsernameExists);
      }
      var user := User(NextId(IdsOf(users, UserId)), dto.username, dto.email);
      IdsOfAppend(users, user, UserId);
      AppendNextIdKeepsDistinct(IdsOf(users, UserId));
      CreateKeepsUsernamesDistinct(users, user);
      users := users + [user];
      r := Created(user);
    }

    /** PUT /api/users/{id}: not found, then blank username, then a username
        another user holds; otherwise username and email are replaced in
        place. */
    method PutUser(id: int, dto: UserCreateDto) returns (r: Response<()>)
      requires Valid()
      modifies this`users
      ensures Valid()
      ensures r.NotFound? <==> id !in IdsOf(old(users), UserId)
      ensures id in IdsOf(old(users), UserId) && IsNullOrWhiteSpace(dto.username) ==>
        r == BadRequest(Some(UsernameRequired))
      ensures id in IdsOf(old(users), UserId) && !IsNullOrWhiteSpace(dto.username) ==>
        (r == Conflict(UsernameExists) <==> UsernameHeldByOther(old(users), id, dto.username))
      ensures (id in IdsOf(old(users), UserId) && !IsNullOrWhiteSpace(dto.username) &&
               !UsernameHeldByOther(old(users), id, dto.username)) ==> r == NoContent
      ensures !r.NoContent? ==> users == old(users)
      ensures r.NoContent? ==>
        exists k :: 0 <= k < |old(users)| && old(users)[k].id == id &&
          users == old(users)[k := User(id, dto.username, dto.email)]
    {
      match IndexOf(IdsOf(users, UserId), id)
      case None => return NotFound;
      case Some(k) =>
        if IsNullOrWhiteSpace(dto.username) {
          return BadRequest(Some(UsernameRequired));
        }
        if UsernameHeldByOther(users, id, dto.username) {
          return Conflict(UsernameExists);
        }
        var updated := User(id, dto.username, dto.email);
        assert IdsOf(users, UserId)[k] == id;
        IdsOfUpdate(users, k, updated, UserId);
        RenameKeepsUsernamesDistinct(users, k, updated);
        users := users[k := updated];
        r := NoContent;
    }

    /** DELETE /api/users/{id} */
    method DeleteUser(id: int) returns (r: Response<()>)
      requires Valid()
      modifies this`users
      ensures Valid()
      ensures r.NotFound? <==> id !in IdsOf(old(users), UserId)
      ensures r.NotFound? ==> users == old(users)
      ensures r.NoContent? || r.NotFound?
      ensures r.NoContent? ==>
        exists k :: 0 <= k < |old(users)| && old(users)[k].id == id && users == RemoveAt(old(users), k)
      ensures r.NoContent? ==> |users| == |old(users)| - 1 && id !in IdsOf(users, UserId)
    {
      match IndexOf(IdsOf(users, UserId), id)
      case None => r := NotFound;
      case Some(k) =>
        IdsOfRemoveAt(users, k, UserId);
        RemoveAtKeepsDistinct(IdsOf(users, UserId), k);
        RemoveKeepsUsernamesDistinct(users, k);
        users := RemoveAt(users, k);
        r := NoContent;
    }

    // ---- contacts ----

    /** GET /api/contacts */
    method GetContacts() returns (r: Response<seq<ContactSubmission>>)
      ensures r == Ok(contacts)
    {
      r := Ok(contacts);
    }

    /** POST /contact. A form is always accepted (the thank-you page is
        answered with Ok); a JSON body that is malformed or null is a bad
        request and stores nothing; a JSON DTO is stored and Created. */
    method PostContact(request: ContactRequest, receivedAt: int) returns (r: Response<ContactSubmission>)
      requires Valid()
      modifies this`contacts
      ensures Valid()
      ensures request.Form? ==>
        r == Ok(ContactSubmission(NextId(IdsOf(old(contacts), ContactId)),
                                  Some(FormValue(request.fields, "name")),
                                  Some(FormValue(request.fields, "email")),
                                  Some(FormValue(request.fields, "message")),
                                  receivedAt))
      ensures request.Json? && !request.body.Parsed? ==> r == BadRequest(None) && contacts == old(contacts)
      ensures request.Json? && request.body.Parsed? ==>
        r == Created(ContactSubmission(NextId(IdsOf(old(contacts), ContactId)),
                                       request.body.dto.name, request.body.dto.email, request.body.dto.message,
                                       receivedAt))
      ensures r.Ok? || r.Created? ==> contacts == old(contacts) + [r.value]
    {
      var submission: ContactSubmission;
      match request {
        case Form(fields) =>
          submission := ContactSubmission(NextId(IdsOf(contacts, ContactId)),
                                          Some(FormValue(fields, "name")),
                                          Some(FormValue(fields, "email")),
                                          Some(FormValue(fields, "message")),
                                          receivedAt);
          r := Ok(submission);
        case Json(body) =>
          if !body.Parsed? {
            return BadRequest(None);
          }
          var dto := body.dto;
          submission := ContactSubmission(NextId(IdsOf(contacts, ContactId)), dto.name, dto.email, dto.message, receivedAt);
          r := Created(submission);
      }
      IdsOfAppend(contacts, submission, ContactId);
      AppendNextIdKeepsDistinct(IdsOf(contacts, ContactId));
      contacts := contacts + [submission];
    }
  }

  /** A user whose username equals the query up to case is found. */
  lemma SearchFindsNameInAnyCase(users: seq<User>, k: nat, query: string)
    requires k < |users| && users[k].username.Some? && Fold(users[k].username.value) == Fold(query)
    ensures users[k] in MatchingUsers(users, query)
  {
    ContainsItself(users[k].username.value, query);
  }

  /** Searching the seeded users for "al" finds alice only. */
  lemma SearchSeedForAl()
    ensures MatchingUsers(SeedUsers, "al") == [SeedUsers[0]]
  {
    assert OccursAt(Fold("al"), Fold("alice"), 0);
    assert !ContainsIgnoreCase("bob", "al") by {
      forall k | 0 <= k <= 3 ensures !OccursAt(Fold("al"), Fold("bob"), k) {
        if k + 2 <= 3 {
          assert Fold("bob")[k..k + 2][0] != Fold("al")[0];
        }
      }
    }
  }

  /** Creating "Alice" when the seeded "alice" exists is a conflict. */
  lemma SeedHoldsAliceInAnyCase()
    ensures UsernameHeld(SeedUsers, Some("Alice"))
  {
    assert EqualsIgnoreCase(SeedUsers[0].username, Some("Alice"));
  }

  /** On the seeded items, deleting item 2 and posting again reuses id 2. */
  lemma SeedItemIdReused()
    ensures NextId(IdsOf(RemoveAt(SeedItems, 1), ItemId)) == 2
  {
    assert IdsOf(RemoveAt(SeedItems, 1), ItemId) == [1];
  }

  /** On the seeded store, a POSTed item gets id 3 and GET /api/items/3 then
      returns it with the submitted fields. */
  method PostThenGetItem(dto: ItemCreateDto) returns (g: Response<Item>)
    ensures g == Ok(Item(3, dto.name, dto.description))
  {
    var store := new Store();
    assert IdsOf(store.items, ItemId) == [1, 2];
    var created := store.PostItem(dto);
    assert store.items == SeedItems + [Item(3, dto.name, dto.description)];
    assert IdsOf(store.items, ItemId)[2] == 3;
    g := store.GetItem(3);
  }

  /** On the seeded store, creating "Alice" is a conflict with "alice" and
      leaves the users unchanged. */
  method CreateAliceOnSeed(email: Option<string>) returns (r: Response<User>, usersKept: bool)
    ensures r == Conflict(UsernameExists) && usersKept
  {
    var store := new Store();
    SeedHoldsAliceInAnyCase();
    assert !IsWhiteSpace("Alice"[0]);
    r := store.PostUser(UserCreateDto(Some("Alice"), email));
    usersKept := store.users == SeedUsers;
  }
}
