# Spelling trainer: a Dafny model of its stores, route guard and API decisions

This project models the logic of a small spelling/vocabulary trainer (a Vue
single-page client over an Express/SQLite API). The model covers:

- the **spaced-repetition queue** (`SpacedRepetition`): the SM-2 style update
  of one word's review record per graded answer, the choice of the next word
  (due words first, then new words), and the queue statistics;
- the **gamification store** (`Gamification`): points, experience and
  level-ups, badges earned once with a bonus, the resets, the
  earned/available split and the leaderboard;
- the **word-list and user stores** (`Wordlists`, `Users`): lookup, filters,
  creation under the next free id, partial updates, deletion, and assigning a
  list to a student;
- the **authentication store** (`Auth`): the role predicates and the login,
  register, logout and restore transitions;
- the **route table and navigation guard** (`Router`);
- the **API handlers' decisions** (`Server`): request validation, status codes
  (400, 401, 404, 409, 500, success) and the effect on the users and word-list
  tables, including the users table's NOT NULL, role CHECK and UNIQUE email
  constraints.

Everything is a pure function over immutable datatypes. `Options` provides
the optional value that stands for `undefined`/`null`. `Seqs` provides the
array primitives the stores use (`filter`, `findIndex`, `find`, `indexOf`,
`splice`), each with its contract.

Abstractions:

- **Clock.** It is a parameter: `now` is a millisecond timestamp.
- **Ease factor.** It is kept in hundredths: 2.5 is 250 and the floor 1.3 is
  130. `Math.round(interval * ease)` becomes `(interval * ease + 50) / 100`.
  Dafny's division rounds down, so this is exactly round-half-up.
- **Level thresholds.** `Math.floor(t * 1.2)` becomes `(6 * t) / 5`.
- **Password hashing.** Producing a hash and checking a password against one
  are function parameters (`hash`, `matches`) of the server handlers.
- **HTTP replies.** A reply to the client's login or register request is an
  abstract `Auth.Reply`.
- **Browser storage.** The saved session is a value (`Auth.Saved`).

Three behaviours of the code that a reader might expect otherwise:

- `processAnswer` with an unknown id silently does nothing. It reports no error.
- Quality grades are not validated. Any integer is accepted, and every grade below 3 counts as a lapse.
- There is no bulk reset of review records.

## Model

| member | source | states |
|---|---|---|
| SpacedRepetition.EaseDelta | src/stores/spacedRepetition.ts:70 | the SM-2 ease adjustment is +0.10 for grade 5, 0 for grade 4 and -0.14 for grade 3 |
| SpacedRepetition.RoundHundredths | src/stores/spacedRepetition.ts:66 | `Math.round` of a value in hundredths is the nearest integer, halves rounded up |
| SpacedRepetition.Review | src/stores/spacedRepetition.ts:53-81 | one graded answer: identity kept, lastReviewed = now, nextReview = now + interval days, ease >= 1.3, exactly one of the two tallies rises; on success correct count and repetitions +1; on failure incorrect count +1, repetitions 0, interval 1, ease max(1.3, ease - 0.2); well-formed records stay well-formed |
| SpacedRepetition.ScaledIntervalAtLeast | src/stores/spacedRepetition.ts:66 | with ease >= 1.3 the rounded product is never below the old interval, so never below 1 |
| SpacedRepetition.SuccessInterval | src/stores/spacedRepetition.ts:61-70 | after a success the interval is 1 for the first repetition, 6 for the second, else old interval times OLD ease rounded; then the ease is adjusted |
| SpacedRepetition.IntervalGrows | src/stores/spacedRepetition.ts:66 | from the third consecutive success on, the interval never shrinks |
| SpacedRepetition.DueWords | src/stores/spacedRepetition.ts:20-23 | exactly the words with nextReview <= now, each as often as it occurs in the list; its length is the number of such positions |
| SpacedRepetition.NewWords | src/stores/spacedRepetition.ts:25-27 | exactly the words with repetitions 0, each as often as it occurs in the list |
| SpacedRepetition.ReviewWords | src/stores/spacedRepetition.ts:29-31 | exactly the words with repetitions > 0, each as often as it occurs in the list |
| SpacedRepetition.QueuesKeepOrder | src/stores/spacedRepetition.ts:20-31 | the due, new and review queues keep list order: each distributes over concatenation |
| SpacedRepetition.NewAndReviewSplit | src/stores/spacedRepetition.ts:25-31 | with no negative repetition count, new and review words partition the list |
| SpacedRepetition.NextWord | src/stores/spacedRepetition.ts:33-46 | the first due word in list order; when none is due, the first new word; nothing exactly when no word is due or new |
| SpacedRepetition.ProcessAnswer | src/stores/spacedRepetition.ts:48-82 | only the first word with the id is reviewed and every other word is unchanged; an unknown id leaves the list unchanged; ids are kept; well-formedness is preserved |
| SpacedRepetition.NewWord | src/stores/spacedRepetition.ts:85-96 | a new record: repetitions 0, interval 1, ease 2.5, due now, never reviewed, both tallies 0 |
| SpacedRepetition.AddWord | src/stores/spacedRepetition.ts:84-98 | appends exactly one new record; the existing records are untouched |
| SpacedRepetition.AddedWordIsPicked | src/stores/spacedRepetition.ts:84-98 | an added word is due at once: the next pick is an earlier due word if any, otherwise the added word, ahead of older new words |
| SpacedRepetition.StatsPartition | src/stores/spacedRepetition.ts:101-104 | with no negative repetition count, mastered + learning + new == total |
| SpacedRepetition.GetStats | src/stores/spacedRepetition.ts:100-113 | total is the list size; mastered, learning, new and dueToday are the numbers of positions with repetitions >= 5, with 0 < repetitions < 5, with repetitions 0 and with nextReview <= now; with no negative repetition count the first three add up to total; dueToday is 0 exactly when no word is due |
| SpacedRepetition.RunKeepsWellFormed | src/stores/spacedRepetition.ts:48-98 | after any sequence of answers and additions every ease is >= 1.3, every interval >= 1 and no count is negative |
| SpacedRepetition.ReviewExamples | src/stores/spacedRepetition.ts:55-78 | worked examples: grade 4 on a new word, then grade 5 (interval 6, ease 2.6), grade 3 (interval 16, ease 2.46), and a lapse from ease 2.0 (ease 1.8, interval 1) |
| Gamification.NextThreshold | src/stores/gamification.ts:120 | the next threshold is floor(1.2 x old) and never smaller than the old one |
| Gamification.ThresholdsGrow | src/stores/gamification.ts:120 | thresholds reached from level 1 never fall below 100 and never decrease |
| Gamification.AddPoints | src/stores/gamification.ts:112-125 | points rise by exactly the amount; when experience reaches the threshold, exactly one level-up consumes the old threshold and sets floor(1.2 x old); otherwise level and threshold are unchanged and experience rises by the amount; the points ledger is kept |
| Gamification.EarnBadge | src/stores/gamification.ts:127-134 | when the first badge with the id is unearned, it becomes earned with date now and its other fields are kept, and the rest of the state is exactly `addPoints(100)` applied to the old state (points, level-up and ledger); on an earned or unknown id nothing changes; other badges are untouched |
| Gamification.EarnBadgeIdempotent | src/stores/gamification.ts:127-134 | earning a badge twice equals earning it once |
| Gamification.EarnBadgeCountsOne | src/stores/gamification.ts:127-134 | an awarded badge grows the earned list by exactly one |
| Gamification.EarnedBadges | src/stores/gamification.ts:107 | exactly the earned badges |
| Gamification.AvailableBadges | src/stores/gamification.ts:108 | exactly the unearned badges |
| Gamification.BadgeListsKeepOrder | src/stores/gamification.ts:107-108 | the earned and available lists keep the badges' order: each distributes over concatenation |
| Gamification.BadgesPartition | src/stores/gamification.ts:107-108 | earned and available badges partition the badge list (as multisets) and no badge is in both |
| Gamification.ResetAchievements | src/stores/gamification.ts:151-162 | every badge unearned with no date, every achievement at progress 0 and not completed; ids, names and targets kept; points and level untouched |
| Gamification.ResetAchievementsClearsBadges | src/stores/gamification.ts:151-162 | after the reset nothing is earned and every badge is available |
| Gamification.ResetAchievementsIdempotent | src/stores/gamification.ts:151-162 | a second reset changes nothing |
| Gamification.ResetGamification | src/stores/gamification.ts:164-170 | points 0, level 1, experience 0, threshold 100 (a balanced ledger); badges and achievements untouched |
| Gamification.RunKeepsLedger | src/stores/gamification.ts:112-170 | across any sequence of operations, points == experience spent on past level-ups + current experience, and the threshold is the one for the current level |
| Gamification.InitialConsistent | src/stores/gamification.ts:23-26 | the initial state balances the ledger |
| Gamification.InsertPosition | src/stores/gamification.ts:148 | where an entry goes in a list sorted by decreasing points: after every strictly higher entry and before the rest |
| Gamification.Insert | src/stores/gamification.ts:148 | insertion keeps the list sorted and adds exactly that entry |
| Gamification.SortByPoints | src/stores/gamification.ts:148 | the result is sorted by non-increasing points and is a permutation of the input |
| Gamification.Leaderboard | src/stores/gamification.ts:141-149 | sorted by non-increasing points, a permutation of the player row and the fixed rows (the store passes its three mock rows, `MockEntries`), and contains the player row |
| Gamification.InsertKeepsSorted | src/stores/gamification.ts:148 | placing an entry after the strictly higher entries and before the rest keeps the list sorted |
| Gamification.InsertRank | src/stores/gamification.ts:148 | an inserted entry sits at its insertion position, preceded only by strictly higher entries and followed only by entries with no more points |
| Gamification.LeaderboardRows | src/stores/gamification.ts:141-149 | the leaderboard has one row more than the fixed rows and contains every one of them |
| Gamification.StoreLeaderboard | src/stores/gamification.ts:141-149 | the store's leaderboard has four rows: the player's, Alice's, Bob's and Charlie's |
| Gamification.YouRank | src/stores/gamification.ts:141-149 | the "You" row carries the current points and level; rows above it have strictly more points and rows below it have no more, whatever the fixed rows are |
| Auth.Fresh | src/stores/auth.ts:15-18 | a new store has no user, no error and is not loading; its token is the saved one, or empty when none was saved; it is authenticated exactly when a non-empty token was saved |
| Auth.UserRole | src/stores/auth.ts:22 | the role is absent exactly when there is no user, otherwise it is the user's role |
| Auth.RolePredicates | src/stores/auth.ts:21-25 | isAdmin implies isTeacher; a signed-in user is a teacher or a student but not both; nobody signed in has no role; isAuthenticated ignores the user and the role predicates ignore the token |
| Auth.FailureMessage | src/stores/auth.ts:38-52 | the error is the server's message when it has one, the default when it is absent or empty, or the raised error's message |
| Auth.Authenticate | src/stores/auth.ts:27-89 | an accepted reply sets user and token, clears the error, saves both and returns true; any other reply keeps user, token and saved session, stores the failure message and returns false; loading is off afterwards |
| Auth.Login | src/stores/auth.ts:27-57 | returns true exactly for an accepted reply; the default message is "Login failed"; a non-empty token makes the store authenticated |
| Auth.Register | src/stores/auth.ts:59-89 | as login, with default message "Registration failed" |
| Auth.Logout | src/stores/auth.ts:91-97 | user absent, token empty, error cleared, saved session removed, hence not authenticated and no role |
| Auth.InitializeAuth | src/stores/auth.ts:99-106 | user and token are restored exactly when both saved entries are present and the token is non-empty; otherwise nothing changes |
| Auth.LoginSurvivesReload | src/stores/auth.ts:44-48 | what a successful login saves is restored by a fresh store plus initializeAuth |
| Auth.LogoutSurvivesReload | src/stores/auth.ts:91-97 | after logout a reload finds nobody signed in |
| Router.Guard | src/router/index.ts:86-102 | a protected route without a token goes to /login, before any role is checked; otherwise a role requirement above the user's clearance goes to /dashboard, where an admin route needs admin and a teacher route needs teacher or admin; otherwise navigation proceeds |
| Router.PublicAlwaysProceeds | src/router/index.ts:99-100 | a route with neither requirement always proceeds |
| Router.RoleRoutesNeedAuth | src/router/index.ts:15-79 | every route in the table that requires a role also requires a token |
| Router.TokenWithoutUser | src/router/index.ts:90-96 | with a token but no user record, every role-guarded route redirects to /dashboard |
| Router.RedirectsSettle | src/router/index.ts:86-102 | for every route in the table, the page the guard redirects to is one the guard lets through |
| Users.GetUserById | src/stores/users.ts:35 | the first user with the id, or nothing exactly when no user has it |
| Users.MaxId | src/stores/users.ts:38 | the largest id of a non-empty list |
| Users.NextUserId | src/stores/users.ts:38 | the new id is the largest existing id plus 1, hence greater than every existing id; on the empty list it is 1 (the correction) |
| Users.AddUser | src/stores/users.ts:37-42 | appends the given fields under a fresh id, the largest existing id plus 1 on a non-empty list, and the new user is found by that id |
| Users.AddUserKeepsIdsDistinct | src/stores/users.ts:37-42 | distinct ids stay distinct after adding |
| Users.UpdateUser | src/stores/users.ts:44-57 | the first user with the id keeps its id, takes each present field and keeps each absent one; nobody else changes; an unknown id changes nothing and returns nothing |
| Users.EmptyUpdateChangesNothing | src/stores/users.ts:44-57 | an update with every field absent changes nothing |
| Users.DeleteUser | src/stores/users.ts:59-66 | returns true exactly when a user has the id; removes exactly the first such entry; otherwise the list is unchanged |
| Users.DeleteUserRemovesExactlyOne | src/stores/users.ts:59-66 | with distinct ids, the deleted user is gone and every other user remains |
| Users.GetUsersByRole | src/stores/users.ts:68 | exactly the users with that role, each as often as it occurs in the list |
| Users.GetUsersByRoleKeepsOrder | src/stores/users.ts:68 | the query keeps list order: it distributes over concatenation |
| Users.MaxIdAsWritten | src/stores/users.ts:38 | `Math.max` over the ids is -Infinity exactly when there is no finite id |
| Users.NextIdAsWritten | src/stores/users.ts:38 | the source's new id is -Infinity exactly when the list has no finite id |
| Users.AsWrittenEmptyListDuplicates | src/stores/users.ts:38 | as written, two users added to an empty list both get id -Infinity |
| Users.AsWrittenAgreesOnNonEmpty | src/stores/users.ts:38 | on a non-empty list the corrected id equals the source's id |
| Wordlists.GetWordlistById | src/stores/wordlist.ts:83-85 | the first list with the id, or nothing exactly when no list has it |
| Wordlists.GetWordlistsForStudent | src/stores/wordlist.ts:87-91 | exactly the lists whose assigned students contain the id, each as often as it occurs |
| Wordlists.GetWordlistsByTeacher | src/stores/wordlist.ts:93-95 | exactly the lists created by the id, each as often as it occurs |
| Wordlists.QueriesKeepOrder | src/stores/wordlist.ts:87-95 | both queries keep the original order (they distribute over concatenation) |
| Wordlists.MaxIdOrZero | src/stores/wordlist.ts:100 | `Math.max(...ids, 0)`: at least 0, at least every id, and equal to an id unless 0 |
| Wordlists.AddWordlist | src/stores/wordlist.ts:97-105 | appends the data under the id `Math.max(...ids, 0) + 1`, which is at least 1 and greater than every existing id, created at now, and the new list is found by that id |
| Wordlists.UpdateWordlist | src/stores/wordlist.ts:107-123 | the first list with the id keeps id, creator and creation time, takes each present field and keeps each absent one; no other list changes; an unknown id changes nothing and returns nothing |
| Wordlists.DeleteWordlist | src/stores/wordlist.ts:125-132 | returns true exactly when a list has the id and removes the first one; otherwise unchanged |
| Wordlists.EmptyWordlistUpdateChangesNothing | src/stores/wordlist.ts:107-123 | an update with every field absent changes nothing |
| Wordlists.UpdatedWordlistIsFound | src/stores/wordlist.ts:107-123 | the list an update returns is the one a lookup by the same id then finds (nothing for an unknown id) |
| Wordlists.DeleteWordlistRemovesExactlyOne | src/stores/wordlist.ts:125-132 | with distinct ids, the deleted list can no longer be found and every other list remains |
| Wordlists.AssignWordlistToStudent | src/stores/wordlist.ts:134-141 | returns true exactly when the first list with the id lacked the student, and appends the student there; never creates a duplicate; nothing else changes |
| Wordlists.UnassignWordlistFromStudent | src/stores/wordlist.ts:143-153 | returns true exactly when the first list with the id had the student, and then removes the student's first occurrence, keeping the order of the rest; nothing else changes |
| Wordlists.AssignThenUnassign | src/stores/wordlist.ts:134-153 | assigning a student not yet on the list, then unassigning them, restores the store exactly |
| Server.InsertUser | server.ts:32-39 | an insert fails NOT NULL for a missing field, then CHECK for an unknown role, then UNIQUE for a taken email; otherwise it appends the row under the next AUTOINCREMENT id and keeps the table valid |
| Server.Login | server.ts:155-195 | 400 without email or password; one identical 401 for an unknown email and for a wrong password; otherwise 200 with the user's id |
| Server.Register | server.ts:197-238 | 400 for a missing or empty field, checked first; then 400 for a password under 6 characters, checked before the role; then 400 for a role outside admin/teacher/student; 409 for a taken email; otherwise 201 with the new row, and the AUTOINCREMENT counter moves to the new id; nothing but success changes the tables; validity is kept |
| Server.RegisterThenLogin | server.ts:155-238 | a user who has just registered logs in with the same email and password and gets the same id |
| Server.CreateUser | server.ts:265-291 | 400 exactly for a missing or short password; with a valid password, a missing email, name or role or an unknown role gives 500, never 400, and 409 is given exactly for a taken email among otherwise valid fields; success exactly when the password is valid, every field is present, the role is valid and the email is free, and then 200 with the next id and exactly that row appended |
| Server.UpdateUser | server.ts:293-306 | 404 exactly when no row has the id; otherwise success exactly when all fields are present, the role is valid and the email belongs to no other row, else 500; the tables change only on success |
| Server.DeleteUser | server.ts:308-320 | 404 exactly when no row has the id, otherwise 200 and that row removed |
| Server.UpdateWordlist | server.ts:403-425 | 404 exactly when no row has the id; 500 exactly when the row exists but name, words or students are missing; otherwise the row is overwritten, keeping creator and creation time, and nothing else in the database changes |
| Server.DeleteWordlist | server.ts:427-439 | 404 exactly when no row has the id, otherwise 200 and that row removed |

## Left out

- src/stores/analytics.ts as a whole. It is request/save plumbing and chart configuration.
- Network and storage I/O: `fetch`, `localStorage`, `JSON.stringify`/`JSON.parse`, Express routing, SQLite statements, schema creation and seeding (server.ts:28-152), static serving and shutdown (server.ts:441-466). Replies, saved sessions and tables are values.
- The endpoints not listed in the table (`GET /api/users`, `GET /api/users/:id`, `GET /api/wordlists`, `GET /api/wordlists/:id`, `POST /api/wordlists`). They are plain reads or an unvalidated insert.
- The 500 replies for database I/O failures. These are foreign failures with no input-level cause. The 500 replies caused by request values that are not strings are listed under the handlers below.
- Token strings (`user_<id>_<time>`). They are built from the clock, so `Server.Login` returns the user id instead.
- bcrypt. Hashing and comparison are the parameters `hash` and `matches`.
- `levelProgress`. It is a floating-point percentage for display.
- The empty `checkAchievements` stub.
- Vue/Pinia reactivity and the router's history. These are UI plumbing.
- The seeded word lists and users. They are data, not logic.
- Word ids built from `Date.now()`. They are a parameter of `AddWord`, and nothing claims they are unique.
- SpacedRepetition.Review: the ease is exact in hundredths and the quality is an integer. JavaScript's double arithmetic in the ease update is abstracted. The difference can reach the interval: an ease kept in doubles drifts slightly from its exact hundredths value, and when interval × ease is near a half day, `Math.round` can then give the source an interval one day off the model's.
- SpacedRepetition.ProcessAnswer: `lastReviewed` and `nextReview` come from two separate clock reads in the source. The model uses one `now` for both.
- SpacedRepetition.NextWord: in the source, `dueWords` is a cached computed value, so its clock reading is from its last recomputation. The model's `now` stands for that instant.
- SpacedRepetition.DueWords: the same cached clock reading as for NextWord; the model's `now` is the instant of the last recomputation.
- SpacedRepetition.GetStats: `dueToday` reads the same cached `dueWords`, so its `now` is also the instant of the last recomputation, not the moment `getStats` is called.
- Gamification.AddPoints: `Math.floor(t * 1.2)` is computed exactly as `(6t)/5`. Double rounding of `t * 1.2` is abstracted.
- Gamification.SortByPoints: the sort is stable by construction, but the contract states stability only for the player row (`YouRank`), not for every tie.
- Server.Register: a password's length is counted in characters, not in UTF-16 code units. Request fields are strings or absent. A non-string password, such as a number, has no `length` and passes the length check, so bcrypt throws and the source replies 500. A non-string email or name that the database driver cannot bind also gives 500. The model does not represent these values.
- Server.Login: request fields are strings or absent. A non-string password, such as a number, passes the presence check, and `bcrypt.compare` then throws. An email the database driver cannot bind, such as an object, also throws. Both give 500 "Login failed" in the source, and that path is not modelled.
- Server.CreateUser: the same as Register. Lengths are counted in characters, not UTF-16 code units, and non-string request values, which give 500 in the source, are not represented.
- Server.DeleteUser: foreign-key enforcement on word lists that reference the deleted user is not modelled.
- Server.UpdateUser: request fields are taken to be strings or absent. An absent field is bound as NULL. Non-string JSON values are not modelled.
- Server.UpdateWordlist: request fields are taken to be strings (name, description), arrays (words, students) or absent. An absent field means `undefined`, which stores NULL and gives 500. Other JSON values are not modelled: a boolean, object or array name or description cannot be bound by the database driver, which throws, and the source replies 500; a number there is stored as text with reply 200; words or students that are not an array, such as a string or a JSON `null`, go through `JSON.stringify` and are stored with reply 200. The model's `Option` has no room for these values, so those replies are not modelled.
- Wordlists.AddWordlist: the source spreads the caller's data into the new list, so the new list shares the caller's `assignedStudents` array. The model has value semantics, so two lists sharing one array are not represented.
- Wordlists.AssignWordlistToStudent: its "no other list changes" clause assumes no list shares its `assignedStudents` array with another. In the source, `push` on a shared array changes every list holding it.
- Wordlists.UnassignWordlistFromStudent: the same assumption as assign, for `splice` on a shared array.
- SpacedRepetition.AddWord: the difficulty is always passed explicitly. The source's default of 0.5, when the argument is omitted, is not represented.
- Auth.InitializeAuth: the saved user is modelled as already parsed. A saved value that fails to parse, or parses to `null`, is not modelled.

## Findings

| source | as written | input that shows it | evidently intended | confidence | as-written member | corrected member |
|---|---|---|---|---|---|---|
| src/stores/users.ts:38 | the new id is `Math.max(...ids) + 1` with no starting value, so on an empty list it is -Infinity | delete every user, then add two users: both get id -Infinity, so ids collide | start from 0 as src/stores/wordlist.ts:100 does, so the first id is 1 and ids stay distinct | not executed; medium | Users.AsWrittenEmptyListDuplicates | Users.NextUserId |
