# Tennis player REST service — a Dafny model

This project models the core of a small Spring Boot service that keeps tennis
player records. The service can list all players by ascending id, look one up,
add one, replace its four attributes (PUT), patch single fields (PATCH), set its
title count through a dedicated path, and delete it. The model covers three
parts of the source:

- the `Player` entity, with its constructors and setters;
- `PlayerService`, the core: existence checks, the not-found error and its
  message, the reflective patch loop, and the saves;
- `PlayerController`: the PUT body check, which runs before the service is
  called, and how each handler maps an outcome to a status and a body.

The modules, one per file:

| file | module | models |
|---|---|---|
| results.dfy | `Results` | `Option` (a Java reference that may be null) and `Result` (a value or the exception raised) |
| text.dfy | `Text` | the decimal text of an `int` in string concatenation, and `String.trim()` |
| players.dfy | `Players` | `Player.java`: the `Player` value and the mutable `PlayerEntity` class with its three constructors and six setters; `PlayerProfile` as a value |
| failures.dfy | `Failures` | `PlayerNotFoundException` and the other errors, and the two message texts |
| repository.dfy | `Repository` | the Spring Data repository, modelled abstractly as a map from id to row plus the id counters of the two tables |
| patching.dfy | `Patching` | the field-by-field assignment inside `patch`, over a closed set of fields |
| service.dfy | `Service` | `PlayerService.java`: a class holding the store. Each method is proved equal to a function (`Added`, `Updated`, `PatchApplied`, `Deleted`), and the functions' contracts state what the operation does |
| controller.dfy | `Controller` | `PlayerController.java`, plus the 404 mapping done by `PlayerExceptionHandler` |

How the Spring Data repository is modelled (`Repository.Save`):

- A record whose id is 0 is new, so it is inserted.
  - The row gets the next player id.
  - A new profile (id 0) gets the next profile id in the same write.
  - A profile that already carries an id is a detached entity. The store refuses it (`StoreFailure`).
- A record with any other id is merged into the row with that id.
  - The row must exist.
  - The record may not take over a profile that another row owns (the one-to-one join column is unique).
  - Otherwise the save fails with `StoreFailure` and writes nothing.

The store invariant `Repository.Valid` says four things:

- every row is filed under its own positive id;
- every id was handed out by the counter;
- profile ids were handed out too;
- no profile belongs to two players.

Every operation preserves it.

How `patch` is modelled (`Patching`):

- The request body is a decoded JSON object. Its values are `JsonNull`, `JsonString`, `JsonInt` or `JsonOther`.
- Each key is looked up by exact name among the six declared fields of `Player`.
  - A key that names no field makes the reflective lookup return null, and the call throws (`NoSuchField`).
  - A value the field cannot hold throws too (`FieldTypeMismatch`).
- What each kind of field accepts:
  - an `int` field takes only an integer (never null);
  - a `String` field takes a string or null;
  - `birthDate` and `playerProfile` take only null. The untyped decoder yields a string for a date and a map for an object, never a `Date` or a `PlayerProfile`.
- The key `id` is accepted like any other field.
- The entries are applied in the order the map yields them. That order is the parameter `order` (any enumeration of the keys).
- `PatchLoopMeetsPatched` proves that the order does not matter.
  - Whatever the order, the loop succeeds exactly when every entry is accepted.
  - When it succeeds, its result is `Patched`: every named field takes its value and every other field keeps its own.
- A failing entry throws before `repo.save`, so the store is not written.

Two behaviours of the code are worth stating plainly:

- `patch` accepts the key `id`, stores values without converting them to the field's type, and throws on a key that names no field.
- `addPlayer` fails when the client sends a profile that already has an id.

## Model

| member | source | states |
|---|---|---|
| `Players.PlayerEntity.constructor` | src/main/java/org/nz/arrakeen/tennisplayerrest/Player.java:27-29 | the no-argument constructor leaves every reference null and id and titles 0 |
| `Players.PlayerEntity.WithDetails` | src/main/java/org/nz/arrakeen/tennisplayerrest/Player.java:31-37 | the four-argument constructor sets name, nationality, birthDate and titles; id stays 0 and the profile null |
| `Players.PlayerEntity.WithProfile` | src/main/java/org/nz/arrakeen/tennisplayerrest/Player.java:39-46 | the five-argument constructor also sets the given profile |
| `Players.PlayerEntity.SetId` | src/main/java/org/nz/arrakeen/tennisplayerrest/Player.java:52-54 | only the id changes, to the given value |
| `Players.PlayerEntity.SetName` | src/main/java/org/nz/arrakeen/tennisplayerrest/Player.java:60-62 | only the name changes |
| `Players.PlayerEntity.SetNationality` | src/main/java/org/nz/arrakeen/tennisplayerrest/Player.java:68-70 | only the nationality changes |
| `Players.PlayerEntity.SetBirthDate` | src/main/java/org/nz/arrakeen/tennisplayerrest/Player.java:76-78 | only the birth date changes |
| `Players.PlayerEntity.SetTitles` | src/main/java/org/nz/arrakeen/tennisplayerrest/Player.java:84-86 | only titles changes; any int, negative ones included, is accepted |
| `Players.PlayerEntity.SetPlayerProfile` | src/main/java/org/nz/arrakeen/tennisplayerrest/Player.java:92-94 | only the profile changes |
| `Text.IntToStringRoundTrip` | src/main/java/org/nz/arrakeen/tennisplayerrest/PlayerService.java:37 | the text an int contributes to a message reads back as that int |
| `Text.IntToStringInjective` | src/main/java/org/nz/arrakeen/tennisplayerrest/PlayerService.java:37 | different ids have different texts |
| `Text.IntToString` | src/main/java/org/nz/arrakeen/tennisplayerrest/PlayerService.java:37 | the text of an int: a minus sign exactly for a negative int, then decimal digits with no leading zero except for 0 itself |
| `Text.Trim` | src/main/java/org/nz/arrakeen/tennisplayerrest/PlayerController.java:41-42 | `trim()` gives the slice of the string left after cutting off the leading and trailing characters up to U+0020; it is empty exactly when every character is at most U+0020, and otherwise starts and ends with a kept character |
| `Failures.NotFoundMessage` | src/main/java/org/nz/arrakeen/tennisplayerrest/PlayerService.java:37 | the not-found message names the id: the text between "Player with id " and " not found." reads back as the id |
| `Failures.DeletedMessage` | src/main/java/org/nz/arrakeen/tennisplayerrest/PlayerService.java:114 | the delete confirmation names the id: the text after "Player with id " and before " deleted" reads back as the id |
| `Failures.NotFoundMessageInjective` | src/main/java/org/nz/arrakeen/tennisplayerrest/PlayerService.java:37 | different ids give different not-found messages |
| `Failures.DeletedMessageInjective` | src/main/java/org/nz/arrakeen/tennisplayerrest/PlayerService.java:114 | different ids give different delete confirmations |
| `Failures.DeletedIsNotNotFound` | src/main/java/org/nz/arrakeen/tennisplayerrest/PlayerService.java:110-114 | a delete confirmation never equals a not-found message |
| `Repository.FindById` | src/main/java/org/nz/arrakeen/tennisplayerrest/PlayerService.java:27 | `findById` finds a player exactly when the id is stored, and in a valid store the row found carries that id |
| `Repository.FindByIdAgreesWithListing` | src/main/java/org/nz/arrakeen/tennisplayerrest/PlayerService.java:20-27 | a lookup by id finds a player exactly when the full listing holds a player with that id, and the player found is in the listing |
| `Repository.Load` | src/main/java/org/nz/arrakeen/tennisplayerrest/PlayerService.java:63-69 | the entity the lookup hands out is a new object holding exactly the stored row |
| `Repository.SortedKeys` | src/main/java/org/nz/arrakeen/tennisplayerrest/PlayerService.java:21 | every stored id exactly once, strictly ascending |
| `Repository.FindAllOrderedById` | src/main/java/org/nz/arrakeen/tennisplayerrest/PlayerService.java:20-22 | every stored player exactly once, in strictly ascending id order, and nothing else |
| `Repository.Insert` | src/main/java/org/nz/arrakeen/tennisplayerrest/PlayerService.java:53-57 | a new record gets a positive id not in the store and keeps its attributes and profile content; all other rows are untouched; refused only for a profile that already has an id |
| `Repository.Save` | src/main/java/org/nz/arrakeen/tennisplayerrest/PlayerService.java:80 | a save either writes exactly one row, the saved record under its id, or writes nothing and fails; a merge succeeds exactly when the row exists and keeps its own profile |
| `Repository.Delete` | src/main/java/org/nz/arrakeen/tennisplayerrest/PlayerService.java:113 | the row with the id and its profile are gone; every other row is kept as it was |
| `Repository.UpdateTitles` | src/main/java/org/nz/arrakeen/tennisplayerrest/PlayerService.java:100-103 | only the titles of the row with that id change; an absent id changes nothing and raises nothing |
| `Patching.FieldNamed` | src/main/java/org/nz/arrakeen/tennisplayerrest/PlayerService.java:90 | a key finds the field with exactly that name, or nothing when Player declares none |
| `Patching.Assignable` | src/main/java/org/nz/arrakeen/tennisplayerrest/PlayerService.java:92 | which values `setField` accepts: null fits exactly the four reference-typed fields, an Integer exactly `id` and `titles`, a string exactly `name` and `nationality`, and any other value no field |
| `Patching.AssignValue` | src/main/java/org/nz/arrakeen/tennisplayerrest/PlayerService.java:92 | after storing a value, the field holds it, every other field keeps its value, and storing what the field already holds changes nothing |
| `Patching.FieldNameRoundTrip` | src/main/java/org/nz/arrakeen/tennisplayerrest/PlayerService.java:90 | each field is found under its own name |
| `Patching.SetField` | src/main/java/org/nz/arrakeen/tennisplayerrest/PlayerService.java:91-92 | storing a fitting value into one field of the entity changes that field only |
| `Patching.ApplyInOrder` | src/main/java/org/nz/arrakeen/tennisplayerrest/PlayerService.java:89-93 | the loop fails exactly when some entry is rejected, and then with the rejection of the first rejected entry in iteration order |
| `Patching.ApplyInOrderRestricted` | src/main/java/org/nz/arrakeen/tennisplayerrest/PlayerService.java:89-93 | the loop over any distinct list of keys succeeds exactly when those entries are accepted, then gives the declarative result; otherwise it reports one rejected entry |
| `Patching.PatchLoopMeetsPatched` | src/main/java/org/nz/arrakeen/tennisplayerrest/PlayerService.java:89-93 | in any iteration order: success exactly when every entry names a field and fits it; on success each named field takes its value and every unnamed field is unchanged; on failure the error names a rejected key |
| `Patching.EmptyPatchChangesNothing` | src/main/java/org/nz/arrakeen/tennisplayerrest/PlayerService.java:89-93 | an empty patch is accepted and leaves the record as it was |
| `Service.Added` | src/main/java/org/nz/arrakeen/tennisplayerrest/PlayerService.java:45-58 | one new entry under an id not in the store, with the input's four attributes and profile content; every existing entry is untouched |
| `Service.Updated` | src/main/java/org/nz/arrakeen/tennisplayerrest/PlayerService.java:61-81 | absent id: the not-found error, nothing written; present id: exactly name, nationality, birthDate and titles come from the input, id and profile are kept, no other row changes |
| `Service.PatchApplied` | src/main/java/org/nz/arrakeen/tennisplayerrest/PlayerService.java:84-98 | absent id: not found, nothing written; a rejected entry: an error naming it, nothing written; an accepted patch that keeps the id writes exactly the patched record; a patch that moves the id never changes the original row |
| `Service.Deleted` | src/main/java/org/nz/arrakeen/tennisplayerrest/PlayerService.java:106-115 | absent id: not found, nothing removed; present id: only that entry is removed and the confirmation is "Player with id {id} deleted"; afterwards the id is absent |
| `Service.PlayerService.GetAllPlayers` | src/main/java/org/nz/arrakeen/tennisplayerrest/PlayerService.java:20-22 | the stored players, each once, by ascending id |
| `Service.PlayerService.GetPlayer` | src/main/java/org/nz/arrakeen/tennisplayerrest/PlayerService.java:25-41 | the stored record, or the not-found error with its exact message; the store is only read |
| `Service.PlayerService.AddPlayer` | src/main/java/org/nz/arrakeen/tennisplayerrest/PlayerService.java:45-58 | building the new entity and saving it has exactly the effect of `Added` |
| `Service.PlayerService.UpdatePlayer` | src/main/java/org/nz/arrakeen/tennisplayerrest/PlayerService.java:61-81 | loading, calling the four setters and saving has exactly the effect of `Updated` |
| `Service.PlayerService.Patch` | src/main/java/org/nz/arrakeen/tennisplayerrest/PlayerService.java:84-98 | the lookup, the field loop on the loaded entity and the save have exactly the effect of `PatchApplied` |
| `Service.PlayerService.UpdateTitles` | src/main/java/org/nz/arrakeen/tennisplayerrest/PlayerService.java:100-103 | the store becomes the titles-only update, with no existence check |
| `Service.PlayerService.DeletePlayer` | src/main/java/org/nz/arrakeen/tennisplayerrest/PlayerService.java:106-115 | the check-then-delete has exactly the effect of `Deleted` |
| `Service.UpdateIsIdempotent` | src/main/java/org/nz/arrakeen/tennisplayerrest/PlayerService.java:74-80 | applying the same full update twice gives the same result and store as applying it once |
| `Service.AddThenGet` | src/main/java/org/nz/arrakeen/tennisplayerrest/PlayerService.java:45-58 | an added record is found under its new id with the input's content |
| `Service.AddIgnoresClientId` | src/main/java/org/nz/arrakeen/tennisplayerrest/PlayerService.java:46-52 | the id in the input has no effect on an add |
| `Service.EmptyPatchLeavesStore` | src/main/java/org/nz/arrakeen/tennisplayerrest/PlayerService.java:86-97 | an empty patch on a stored id returns the record and leaves the store as it was |
| `Service.AbsentIdIsNotFound` | src/main/java/org/nz/arrakeen/tennisplayerrest/PlayerService.java:25-115 | for an absent id, get, update, patch and delete all fail with the same not-found error and write nothing; updateTitles alone raises nothing and writes nothing |
| `Controller.InvalidForPut` | src/main/java/org/nz/arrakeen/tennisplayerrest/PlayerController.java:41-44 | a PUT body is invalid exactly when the name or nationality is null or blank, the birth date is null, or titles is negative |
| `Controller.ErrorResponse` | src/main/java/org/nz/arrakeen/tennisplayerrest/PlayerExceptionHandler.java:16-22 | not found becomes status 404 with the exception's message; nothing else becomes 404 |
| `Controller.PlayerResponse` | src/main/java/org/nz/arrakeen/tennisplayerrest/PlayerController.java:34-35 | a player body appears exactly on success, with the handler's success status; an error gets the error response; for a success status other than 404 and 500, the status alone tells success from failure |
| `Controller.PlayerController.Welcome` | src/main/java/org/nz/arrakeen/tennisplayerrest/PlayerController.java:17-20 | 200 with the text "Tennis Player REST API" |
| `Controller.PlayerController.GetAllPlayers` | src/main/java/org/nz/arrakeen/tennisplayerrest/PlayerController.java:22-25 | 200 with every stored player once, by ascending id |
| `Controller.PlayerController.GetPlayer` | src/main/java/org/nz/arrakeen/tennisplayerrest/PlayerController.java:27-30 | 200 with the stored player, or 404 with "Player with id {id} not found." |
| `Controller.PlayerController.AddPlayer` | src/main/java/org/nz/arrakeen/tennisplayerrest/PlayerController.java:32-36 | 201 with the player `addPlayer` created |
| `Controller.PlayerController.UpdatePlayer` | src/main/java/org/nz/arrakeen/tennisplayerrest/PlayerController.java:38-53 | an invalid body gets 400 and the fixed text, and the store is untouched even for an absent id; a valid one gets 200 with the updated player, or 404 |
| `Controller.PlayerController.PartialUpdate` | src/main/java/org/nz/arrakeen/tennisplayerrest/PlayerController.java:55-58 | the id and body go to `patch` unchanged; 200 with its result, or its error |
| `Controller.PlayerController.UpdateTitles` | src/main/java/org/nz/arrakeen/tennisplayerrest/PlayerController.java:60-63 | the titles-only update, then 200 with no body |
| `Controller.PlayerController.DeletePlayer` | src/main/java/org/nz/arrakeen/tennisplayerrest/PlayerController.java:65-68 | 200 with the confirmation text, or 404 |
| `Controller.MissingPlayerMessage` | src/test/java/org/nz/arrakeen/tennisplayerrest/PlayerControllerIntegrationTest.java:67-77 | the message for id 999 is "Player with id 999 not found." and the confirmation for id 1 is "Player with id 1 deleted" |
| `Controller.RejectedPutBodies` | src/test/java/org/nz/arrakeen/tennisplayerrest/PlayerControllerIntegrationTest.java:134-159 | an empty name and a negative title count are rejected; a complete body passes |

## Left out

- The Spring Data and JPA repositories are replaced by the abstract store described above. Left out with them:
  - SQL;
  - the transaction on `updateTitles`;
  - flushing of managed entities;
  - concurrency between requests.
- Setting `playerProfile` to null by a patch orphans the profile row in the database. The profile lives inside its player's row here, so that orphan row is not represented.
- `Service.PatchApplied`: for a patch that moves the record to another id, the contract promises only that the row it was loaded from is unchanged.
  - The resulting write is whatever `Save` does with the new id: insert for 0, merge into an existing row, or `StoreFailure`.
  - The JPA provider's actual handling of an id that is not in the store is not modelled further.
- `Repository.Insert`: a client-supplied profile id is treated as a detached entity and refused. The exact exception the JPA provider raises is not modelled.
- Only the not-found error has a handler in the source. Every other error is given status 500, standing for the framework's default handler.
- JSON encoding and decoding, the `dd-MM-yyyy` date format and the routing annotations are not modelled. A date is an opaque (day, month, year) triple with no calendar arithmetic.
- The exception handler's timestamp (a clock read) and request path are left out. Only the status and the message are kept.
- The `id` and `titles` fields of a stored player are unbounded integers, not 32-bit; the core does no arithmetic on them. A whole number in a patch body is `JsonInt` only within the 32-bit range (`Int32`); a larger one decodes as a long, which is `JsonOther` and rejected.
- The getters are reads of the entity's fields, and `toString` is debugging text. Neither is modelled as a member.
- When a patch entry throws, the loaded entity may be left half-changed. That entity is then discarded unsaved, so this is not visible in the store and is not modelled.
- The iteration order of the request's map is left to the caller, as the parameter `order`.
