# HelloWorldApp core, modelled in Dafny

HelloWorldApp is a small ASP.NET minimal API. This project models its logic, without the HTTP layer:

- **`InMemoryStore`** (`store.dfy`) holds the three in-memory collections (items, users, contact submissions) and the route handlers that read and change them. `Store` is a class with three `seq` fields. There is one method per handler, and each returns a `Response` (`Ok | Created | NoContent | NotFound | BadRequest | Conflict`). Each changing method is framed by `modifies this`<field>`, so the other two collections cannot change. It keeps the invariant `Valid()`: ids are distinct in each collection, and non-null usernames are distinct ignoring case. The constructor builds the seeded lists.
- **`IdAllocation`** (`ids.dfy`) covers what all three collections share:
  - sequential ids: `Max(x => x.Id) + 1`, or `1` when the list is empty;
  - `FirstOrDefault(x => x.Id == id)`, which finds the first match;
  - `List.Remove`;
  - the lemmas showing that ids stay distinct.
- **`Orders`** (`orders.dfy`) models `OrderValidator.Validate`. It is a pure function over an `OrderCreateDto` and a sequence of order-model `User`s. The first rule that fails decides the error.
- **`Greeting`** (`greeting.dfy`) models `GreetingService.GetGreeting`.
- **`Text`** (`text.dfy`) models the base-library string behaviour these parts use: nullable strings, `string.IsNullOrWhiteSpace`, ordinal case-insensitive equality and containment, and `string.Join`.

Some modelling choices:
- C#'s `null` is `Option.None`.
- `decimal Total` is a `real`, because it is only compared with zero.
- `DateTime.UtcNow` is the `receivedAt` parameter.
- A POST body from a form is its list of name=value pairs, in the order they were sent. A field is read as the form collection does it: names are compared ignoring case, the values of the matching pairs are kept in send order, and `StringValues.ToString` joins the non-empty ones with commas, skipping empty values. A JSON body is `Malformed`, `Null` or `Parsed(dto)`. Malformed covers both a parse exception and a non-JSON content type, which the handler's `catch` turns into 400.

## Model

| member | source | states |
|---|---|---|
| Text.EqualsIgnoreCaseIsEquivalence | HelloWorldApp/Program.cs:165 | ordinal case-insensitive equality on nullable strings is reflexive, symmetric and transitive |
| Text.ContainsItself | HelloWorldApp/Program.cs:152 | a username contains any query equal to it up to case |
| Greeting.GetGreeting | HelloWorldApp/Services/GreetingService.cs:8-11 | a null, empty or blank name gives "Hello from GreetingService!"; reading the greeting back yields no name in that case, and otherwise it yields exactly the name passed in, verbatim and untrimmed |
| Greeting.GreetingDistinguishesNames | HelloWorldApp/Services/GreetingService.cs:10 | a non-blank name never gets the default greeting, and two non-blank names get the same greeting only if they are equal |
| Orders.Validate | HelloWorldApp/Services/OrderValidator.cs:9-21 | valid iff Total > 0, some user has Id == UserId, and Status is null or one of the allowed values; valid iff the error is null; the error is the message of the first failing rule in the rule order; Total <= 0 gives the total error whatever the other fields are; a missing user (with a positive total) gives the user error; a null status never causes rejection |
| Orders.StatusErrorText | HelloWorldApp/Services/OrderValidator.cs:18 | the status error lists Pending,Processing,Completed,Cancelled joined by commas |
| Orders.StatusIsCaseSensitive | HelloWorldApp/Services/OrderValidator.cs:7-18 | the status match is exact: "pending" and "Shipped" are refused and "Pending" is accepted |
| IdAllocation.MaxId | HelloWorldApp/Program.cs:116 | `Max` returns an id of the list that no other id exceeds |
| IdAllocation.NextId | HelloWorldApp/Program.cs:116 | the next id is larger than every id in use; it is 1 for an empty list, and otherwise one more than an id in use |
| IdAllocation.IndexOf | HelloWorldApp/Program.cs:110 | the lookup finds nothing iff the id is absent; otherwise it finds the first position holding that id |
| IdAllocation.RemoveAt | HelloWorldApp/Program.cs:135 | removal drops exactly one element; the elements before it keep their positions and the ones after shift down by one, in order |
| IdAllocation.AppendNextIdKeepsDistinct | HelloWorldApp/Program.cs:116-118 | appending a record with the next id keeps ids distinct |
| IdAllocation.RemoveAtKeepsDistinct | HelloWorldApp/Program.cs:133-135 | removing a record keeps ids distinct and removes that id from the list |
| IdAllocation.NextIdAfterRemovingMax | HelloWorldApp/Program.cs:116 | after the record with the largest id m is deleted, the next POST gets an id <= m (when records remain); it gets exactly m iff m-1 is still in use, or the list is now empty and m was 1 |
| IdAllocation.NextIdInt32 | HelloWorldApp/Program.cs:116 | the allocation as written on 32-bit ints; it agrees with NextId whenever the largest id is below int.MaxValue |
| IdAllocation.NextIdInt32Collides | HelloWorldApp/Program.cs:116 | from ids [int.MaxValue], two POSTs both get int.MinValue, which duplicates an id |
| IdAllocation.NextIdNeverCollides | HelloWorldApp/Program.cs:116 | on unbounded ids, the next id is never already in use |
| InMemoryStore.MatchingUsers | HelloWorldApp/Program.cs:152 | the search result holds exactly the users whose Username is non-null and contains the query ignoring case, and is no longer than the list |
| InMemoryStore.MatchingUsersAppend | HelloWorldApp/Program.cs:152 | the search preserves list order: searching a concatenation gives the matches of the first part followed by those of the second |
| InMemoryStore.CreateKeepsUsernamesDistinct | HelloWorldApp/Program.cs:165-170 | appending a user whose username nobody holds keeps usernames distinct ignoring case |
| InMemoryStore.RenameKeepsUsernamesDistinct | HelloWorldApp/Program.cs:180-184 | renaming a user to a name that no user with another id holds keeps usernames distinct |
| InMemoryStore.RenameToOwnNameInOtherCase | HelloWorldApp/Program.cs:180 | the conflict check skips the user's own id, so renaming to one's own name in a different case is never a conflict |
| InMemoryStore.RemoveKeepsUsernamesDistinct | HelloWorldApp/Program.cs:192 | deleting a user keeps usernames distinct |
| InMemoryStore.Store.constructor | HelloWorldApp/Program.cs:47-54 | the store starts with the two seeded items, the users alice and bob (seeded at lines 140-144), and no contacts, and the invariant holds |
| InMemoryStore.Store.GetItems | HelloWorldApp/Program.cs:106 | returns the whole item list |
| InMemoryStore.Store.GetItem | HelloWorldApp/Program.cs:108-112 | NotFound iff no item has the id; otherwise Ok with an item of the list that has that id |
| InMemoryStore.Store.PostItem | HelloWorldApp/Program.cs:114-120 | appends Item(next id, Name, Description) at the end and returns it as Created; the caller cannot choose the id; ids stay distinct; users and contacts unchanged |
| InMemoryStore.Store.PutItem | HelloWorldApp/Program.cs:122-129 | NotFound and no change iff the id is absent; otherwise NoContent, and only Name and Description of the matching record are replaced, while its Id, the order, the length and every other record stay the same |
| InMemoryStore.Store.DeleteItem | HelloWorldApp/Program.cs:131-137 | NotFound and no change iff the id is absent; otherwise NoContent, exactly the matching record is removed, the length drops by one, the id is gone and the rest keep their order |
| InMemoryStore.Store.GetUsers | HelloWorldApp/Program.cs:146 | returns the whole user list |
| InMemoryStore.Store.SearchUsers | HelloWorldApp/Program.cs:149-154 | a null or blank query gives BadRequest; otherwise Ok with the matching users in list order; nothing changes |
| InMemoryStore.Store.GetUser | HelloWorldApp/Program.cs:156-160 | NotFound iff no user has the id; otherwise Ok with a user of the list that has that id |
| InMemoryStore.Store.PostUser | HelloWorldApp/Program.cs:162-172 | a blank username gives BadRequest; a username already held ignoring case (`UsernameHeld`, the `Any` at line 165) gives Conflict; on both errors users are unchanged; otherwise the user is appended with the next id and returned as Created; ids and usernames stay distinct |
| InMemoryStore.Store.PutUser | HelloWorldApp/Program.cs:174-186 | checks in order: NotFound iff the id is absent, then BadRequest for a blank username, then Conflict iff a user with another id holds the name ignoring case (`UsernameHeldByOther`, the filter at line 180); errors change nothing; otherwise NoContent, and only Username and Email of that record are replaced in place; the invariant is kept |
| InMemoryStore.Store.DeleteUser | HelloWorldApp/Program.cs:188-194 | NotFound and no change iff the id is absent; otherwise exactly that user is removed, the rest keep their order and the invariant is kept |
| InMemoryStore.Store.GetContacts | HelloWorldApp/Program.cs:104 | returns the whole contact list |
| InMemoryStore.Store.PostContact | HelloWorldApp/Program.cs:75-102 | a form is always accepted: the submission gets the next id and the form's name, email and message fields as `FormValue` reads them (names ignoring case, non-empty values joined by commas, empty when missing); a malformed or null JSON body gives BadRequest and stores nothing; a JSON DTO is stored with the next id and returned as Created; on success the submission is appended at the end |
| InMemoryStore.SearchFindsNameInAnyCase | HelloWorldApp/Program.cs:152 | a user whose username equals the query up to case is in the search result |
| InMemoryStore.FormValues | HelloWorldApp/Program.cs:80-82 | the values held under a field name are exactly the values of the pairs whose name equals it ignoring case |
| InMemoryStore.FormValuesAppend | HelloWorldApp/Program.cs:80-82 | the values keep send order: for a concatenation of pairs they are those of the first part followed by those of the second, with repetitions kept |
| InMemoryStore.NonEmpty | HelloWorldApp/Program.cs:80-82 | the values `StringValues.ToString` joins are exactly the non-empty ones |
| InMemoryStore.NonEmptyAppend | HelloWorldApp/Program.cs:80-82 | dropping empty values keeps order: it distributes over concatenation |
| InMemoryStore.FormValue | HelloWorldApp/Program.cs:80-82 | `form[name].ToString()` is the empty string iff the field is missing or every value sent for it is empty |
| InMemoryStore.FormValueSkipsEmptyValue | HelloWorldApp/Program.cs:80-82 | inserting a pair with an empty value anywhere in the form changes no field's string |
| InMemoryStore.FormValueOfRepeatedField | HelloWorldApp/Program.cs:80-82 | `name=&name=Jo` reads as "Jo", and `name=Ann&Name=Jo` reads as "Ann,Jo" |
| InMemoryStore.FormValueIgnoresCase | HelloWorldApp/Program.cs:80-82 | reading a form field gives the same string whatever the case of the field name |
| InMemoryStore.FormValueOfSingleField | HelloWorldApp/Program.cs:80-82 | a field sent once reads back verbatim, and a field that was not sent reads as the empty string |
| InMemoryStore.SearchSeedForAl | HelloWorldApp/Program.cs:140-154 | searching the seeded users for "al" returns exactly [alice] |
| InMemoryStore.SeedHoldsAliceInAnyCase | HelloWorldApp/Program.cs:140-166 | "Alice" counts as already held in the seeded users |
| InMemoryStore.SeedItemIdReused | HelloWorldApp/Program.cs:47-51 | after item 2 of the seeded list is deleted, the next id is 2 again |
| InMemoryStore.PostThenGetItem | HelloWorldApp/Program.cs:108-120 | on the seeded store, a POSTed item gets id 3, and GET of id 3 returns it with the submitted fields |
| InMemoryStore.CreateAliceOnSeed | HelloWorldApp/Program.cs:162-166 | on the seeded store, creating "Alice" is a Conflict and leaves users equal to the seed |

## Left out

- Host setup, routing, the development exception page and `app.Run` (Program.cs:9-19, 196) are framework plumbing.
- `GET /`, `GET /api/hello` and `GET /api/spec` (Program.cs:21-44) return constant payloads or runtime, OS and process data read through foreign APIs.
- `GET /contact` and the thank-you page text with `WebUtility.HtmlEncode` (Program.cs:57-72, 86) are presentation only. The form path of `PostContact` answers `Ok(submission)` in place of the HTML page.
- The `Form` variant of a contact request stands for a form body that was read successfully. `ReadFormAsync` (Program.cs:79) runs outside the `try` at lines 90-101, so a form that fails to read ends in an unhandled exception (a 500), and that path is not modelled.
- `Created` location strings and JSON serialisation of results are not modelled.
- The model-binding 400s for a missing or malformed body on `/api/items` and `/api/users` come from the framework before a handler runs. They are not modelled; each DTO is given as a value.
- Records are values: a record returned by GET and later changed in place by PUT is not modelled as aliased.
- Concurrent requests are not modelled; the store is sequential. The non-atomic read of `Max + 1` followed by `Add` is a concurrency issue.
- Each collection lives for the process's lifetime and is not persisted, so the model has no I/O.
- Text.FoldChar: OrdinalIgnoreCase folds only ASCII letters here. .NET's full simple upper-case mapping for other characters is not modelled.
- InMemoryStore.Store.GetItem: the contract says the result has the requested id and belongs to the list. Because ids are distinct, that determines the record; it does not state the first-match rule, which only matters with duplicate ids.
- InMemoryStore.Store.GetUser: weaker in the same way as GetItem.
- The model uses unbounded ids, that is NextId rather than NextIdInt32. "## Findings" below explains why.
- A login route does not appear in Program.cs, so none is modelled.

## Findings

| source | as written | input that shows it | evidently intended | confidence | as-written member | corrected member |
|---|---|---|---|---|---|---|
| HelloWorldApp/Program.cs:116 | `list.Max(x => x.Id) + 1` on `int` (also at lines 83, 94 and 168) wraps from int.MaxValue to int.MinValue in C#'s default unchecked context | a collection whose largest id is int.MaxValue, reached by repeated POST/DELETE, followed by two POSTs: both get int.MinValue | every POST gets an id not already in use | medium, not executed; this assumes the project does not enable checked arithmetic, under which the POST would throw instead | IdAllocation.NextIdInt32 (shown by IdAllocation.NextIdInt32Collides) | IdAllocation.NextId (proved by IdAllocation.NextIdNeverCollides and IdAllocation.AppendNextIdKeepsDistinct) |
