# Mergington High School activities: a Dafny model of the roster manager

The application keeps one MongoDB collection, `activities`. It holds one
document per extracurricular activity: name, description, schedule, a
participant limit and the list of enrolled student e-mail addresses. Three
HTTP handlers work on that collection: listing every activity, signing a
student up, and unregistering a student. At start-up an empty collection is
filled with nine sample activities.

The project has three modules:

- `Roster` (`roster.dfy`) has the activity record and the collection, modelled
  as a map from activity name to record. It defines the two roster invariants:
  no address twice, and no more participants than the limit. It also has the
  response values with their HTTP status codes and the error and success texts
  exactly as the handlers format them. The `$pull` update is the function
  `Pull`, and `insert_many` is `InsertMany`. Each handler's effect on the
  collection is a pure function, `SignupStep` or `UnregisterStep`. The module
  also has lemmas about a single `$pull`, and lemmas that relate several
  requests.
- `Seed` (`seed.dfy`) has the nine entries of `sample_activities`, the
  dictionary's values in order, and proofs that each record has a seed's
  shape: two distinct participants and room for at least ten. It also proves
  that no two records share a name.
- `App` (`app.dfy`) has the class `ActivityStore`. Its mutable field
  `activities` stands for the collection. Its methods are the start-up seeding
  step and the two updating handlers, and its function `GetActivities` is the
  listing handler. Each method is proved against the matching step function
  of `Roster`. A method changes the collection only when it answers with
  success.

The signup handler adds a student with MongoDB's `$push` update (line 165): a
plain append to the end of the stored list. The model follows that code.
`$push` would append a second copy of an address already present; unlike an
add-if-absent update it does not skip it. The duplicate check at line 149 is
what keeps the list free of duplicates.

The roster invariants are not assumed of the documents the collection already
holds: the source never checks them. The handlers preserve them when they
hold. Seeding an empty collection establishes them.

## Model

| member | source | states |
|---|---|---|
| `Roster.Response.Status` | src/app.py:141-160 | a missing activity or student is answered with 404, a duplicate signup or a full activity with 400, and success with 200; each code is used for exactly one kind of answer |
| `Roster.IsFull` | src/app.py:156 | an activity is full when its roster holds at least as many addresses as its limit |
| `Roster.DecimalDigits` | src/app.py:159 | the decimal digits of a non-negative number: never empty, and every character is a digit |
| `Roster.DecimalDigitsValue` | src/app.py:159 | reading the digits back as a decimal number gives the original number, so the limit is rendered as its own value |
| `Roster.IntText` | src/app.py:159 | renders an integer in decimal, with a leading minus sign when it is negative, as the f-string does with `max_participants` |
| `Roster.ActivityNotFound` | src/app.py:109 | renders "Activity '<name>' not found"; the signup handler uses the same text at line 145 |
| `Roster.NotRegistered` | src/app.py:115 | renders "Student <email> is not registered for <name>" |
| `Roster.Removed` | src/app.py:123 | renders "Successfully removed <email> from <name>" |
| `Roster.AlreadySignedUp` | src/app.py:152 | renders "Student <email> is already signed up for <name>" |
| `Roster.ActivityFull` | src/app.py:159 | renders "<name> is full (<max> participants maximum)", with the limit written in decimal |
| `Roster.SignedUp` | src/app.py:167 | renders "Successfully signed up <email> for <name>" |
| `Roster.InsertMany` | src/app.py:98 | `insert_many` files every document under its own name and keeps the other documents already stored; the result is keyed by name and sound when the old collection and every new document are |
| `Roster.InsertManyKeepsOthers` | src/app.py:98 | a stored document whose name none of the inserted documents carries is left unchanged |
| `Roster.InsertManyFilesEach` | src/app.py:98 | when the inserted documents have distinct names, each one ends up stored under its name, unchanged |
| `Roster.Pull` | src/app.py:118-122 | after `$pull` the removed value is no longer in the list, and the list is no longer than before |
| `Roster.PullCounts` | src/app.py:118-122 | `$pull` drops every copy of the value and keeps every copy of each other value |
| `Roster.PullKeepsOrder` | src/app.py:118-122 | the entries that `$pull` keeps are still in their original relative order |
| `Roster.PullAbsent` | src/app.py:118-122 | pulling a value the list does not hold leaves the list unchanged |
| `Roster.PullKeepsNoDuplicates` | src/app.py:118-122 | `$pull` keeps a list free of duplicates |
| `Roster.PullConcat` | src/app.py:118-122 | `$pull` acts on the two halves of a list independently |
| `Roster.PullAfterPush` | src/app.py:162-166 | pulling an address that was just appended to a list without it gives the original list back |
| `Roster.PullSplit` | src/app.py:118-122 | where a value occurs exactly once, `$pull` removes exactly that entry and keeps everything around it |
| `Roster.PullRemovesOne` | src/app.py:118-122 | on a roster without duplicates, `$pull` removes exactly the entry holding the address |
| `Roster.PullSplitThenPush` | src/app.py:118-122 | where a value occurs exactly once, the pulled list is one shorter than the original, and the pulled list with the value appended has the same elements as the original, counted as a multiset |
| `Roster.PullThenPushPermutes` | src/app.py:118-122 | on a roster without duplicates, removing an enrolled address and appending it again yields a permutation of the roster, one shorter before the append |
| `Roster.SignupStep` | src/app.py:137-167 | an unknown activity gives 404 "Activity '…' not found"; otherwise an enrolled address gives 400 "already signed up", which takes priority over a full activity; a full activity gives 400 "… is full (N participants maximum)"; success happens exactly when none of these applies, and then the address is appended to that one roster while every other document stays the same; keying by name and the roster invariants are preserved; on every refusal the collection is unchanged |
| `Roster.UnregisterStep` | src/app.py:100-123 | an unknown activity gives 404 "Activity '…' not found"; an address that is not enrolled gives 404 "is not registered"; a 400 never happens; success happens exactly when the student is enrolled, and then every copy of the address is pulled from that one roster while every other document stays the same; keying by name and the roster invariants are preserved |
| `Roster.SignupTwiceRefused` | src/app.py:149-153 | repeating a successful signup is refused as a duplicate, and the collection is left unchanged |
| `Roster.UnregisterTwiceRefused` | src/app.py:112-116 | repeating a successful unregister is answered with 404 "not registered", and the collection is left unchanged |
| `Roster.SignupThenUnregister` | src/app.py:162-166 | signing up a new student where there is room, then unregistering them, succeeds and restores the collection exactly |
| `Roster.UnregisterThenSignup` | src/app.py:118-122 | on a sound collection, unregistering an enrolled student and then signing them up again succeeds; the roster ends up as the pulled roster with the student last, a permutation of the original |
| `Seed.ChessClub` | src/app.py:31-37 | the Chess Club document: its name, description and schedule texts, a limit of 12, and participants michael and daniel at mergington.edu |
| `Seed.ProgrammingClass` | src/app.py:38-44 | the Programming Class document: its name, description and schedule texts, a limit of 20, and participants emma and sophia at mergington.edu |
| `Seed.GymClass` | src/app.py:45-51 | the Gym Class document: its name, description and schedule texts, a limit of 30, and participants john and olivia at mergington.edu |
| `Seed.SoccerTeam` | src/app.py:52-58 | the Soccer Team document: its name, description and schedule texts, a limit of 18, and participants lucas and mia at mergington.edu |
| `Seed.BasketballClub` | src/app.py:59-65 | the Basketball Club document: its name, description and schedule texts, a limit of 15, and participants liam and ava at mergington.edu |
| `Seed.ArtClub` | src/app.py:66-72 | the Art Club document: its name, description and schedule texts, a limit of 16, and participants ella and noah at mergington.edu |
| `Seed.DramaSociety` | src/app.py:73-79 | the Drama Society document: its name, description and schedule texts, a limit of 20, and participants amelia and jack at mergington.edu |
| `Seed.MathOlympiad` | src/app.py:80-86 | the Math Olympiad document: its name, description and schedule texts, a limit of 10, and participants ethan and grace at mergington.edu |
| `Seed.ScienceClub` | src/app.py:87-93 | the Science Club document: its name, description and schedule texts, a limit of 14, and participants chloe and benjamin at mergington.edu |
| `Seed.SampleValues` | src/app.py:98 | `sample_activities.values()`: the nine documents in the dictionary's order |
| `Seed.ChessClubShaped` | src/app.py:31-37 | the Chess Club record has two distinct participants and space for at least ten |
| `Seed.ProgrammingClassShaped` | src/app.py:38-44 | the Programming Class record has two distinct participants and space for at least ten |
| `Seed.GymClassShaped` | src/app.py:45-51 | the Gym Class record has two distinct participants and space for at least ten |
| `Seed.SoccerTeamShaped` | src/app.py:52-58 | the Soccer Team record has two distinct participants and space for at least ten |
| `Seed.BasketballClubShaped` | src/app.py:59-65 | the Basketball Club record has two distinct participants and space for at least ten |
| `Seed.ArtClubShaped` | src/app.py:66-72 | the Art Club record has two distinct participants and space for at least ten |
| `Seed.DramaSocietyShaped` | src/app.py:73-79 | the Drama Society record has two distinct participants and space for at least ten |
| `Seed.MathOlympiadShaped` | src/app.py:80-86 | the Math Olympiad record has two distinct participants and space for at least ten |
| `Seed.ScienceClubShaped` | src/app.py:87-93 | the Science Club record has two distinct participants and space for at least ten |
| `Seed.SampleValuesShaped` | src/app.py:30-94 | `sample_activities.values()` holds nine records, and each one satisfies both roster invariants |
| `Seed.SampleNamesDistinct` | src/app.py:30-94 | no two sample records share a name |
| `App.ActivityStore.constructor` | src/app.py:16-18 | the store opens a collection whose documents are filed under their own names; the sample data is the nine records of `sample_activities` |
| `App.ActivityStore.SeedIfEmpty` | src/app.py:96-98 | an empty collection is filled with the sample records: each one is stored under its own name, nothing else is stored, and the result satisfies both roster invariants; a non-empty collection is left unchanged |
| `App.ActivityStore.GetActivities` | src/app.py:130-134 | the listing has exactly the collection's names as keys, and each key maps to the document carrying that name |
| `App.ActivityStore.SignupForActivity` | src/app.py:137-167 | answers and updates exactly as `SignupStep` says; the collection changes only on success, and a sound collection stays sound |
| `App.ActivityStore.UnregisterFromActivity` | src/app.py:100-123 | answers and updates exactly as `UnregisterStep` says; the collection changes only on success, and a sound collection stays sound |

## Left out

- The MongoDB client, database and collection handles (lines 16-18). They are modelled only as the `activities` map field. The wire protocol and the server are left out.
- The FastAPI application object, the static-file mount and the root redirect to `/static/index.html` (lines 21-27 and 125-127). They are routing and file serving, not roster logic.
- Query-string and path parsing done by FastAPI. Handlers take the activity name and the e-mail as plain strings.
- Store errors. A failed `count_documents`, `find_one` or `update_one` call (lines 97, 105, 119, 141 and 163) raises, and FastAPI answers with a server error. `Response` has no such case: every store call is taken to succeed.
- Concurrent requests. The source reads a document and updates it in two separate database calls. Two requests that interleave could both pass the capacity or duplicate check. The model runs each request atomically.
- The `_id` field that MongoDB adds and `get_activities` projects away. The model's documents never carry it.
- Address validation and case-insensitive comparison. The source does neither, and neither does the model; addresses are compared as exact strings.
- `Roster.InsertMany`: a map cannot hold two documents with the same name. MongoDB would store both, and `find_one` would return the first. The model's map keeps the last one. The sample data has distinct names (`Seed.SampleNamesDistinct`), so seeding is unaffected.
- The browser front end `src/static/app.js` is not part of this model.
