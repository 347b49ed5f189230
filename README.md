# Typing trainer: a verified model of its game logic and endpoints

This project models the parts of a Next.js typing trainer whose behaviour can be stated
precisely, and proves what they promise:

- **Typing session** (`TypingGame`): the game component's state (`started`, `finished`,
  `currentSentenceIndex`, `typedText`, `timeLeft`, the start instant) is class `Session`.
  Its effects and handlers are methods: the reset on a difficulty or timer change, Start,
  typing, the one-second countdown, moving to the next sentence, auto-advance and finish.
  Scoring is pure: the number of matching positions, words per minute, accuracy, and the
  per-character colouring.
- **Result page** (`ResultPage`): default-to-zero character statistics, the zero start of
  the speed history, the gap-filling loop with rounded linear interpolation (a method
  proved against a recursive definition), the consistency guard, and the chart's axis
  ticks, upper bound and dot spacing.
- **Sentence endpoint** (`SentencePool`): the per-user sets of sentences already given,
  the unused-sentence pool and its reset when exhausted, the random selection of distinct
  sentences, and the POST that adds a sentence.
- **Profile form** (`EditProfile`): initial fields, a field edit, URL normalisation of the
  website, Twitter and GitHub fields, and the saving flag.
- **Game history** (`GameOrder`, `Stats`, `Games`): sorting game records by timestamp,
  the stats page (chart in ascending order, table of the 15 newest), and the games
  endpoint (authenticated append, per-owner listing newest first).
- **Accounts** (`Users`, `Registration`, `PasswordReset`, `Accounts`): registration with
  unique usernames and emails, issuing a hex reset token that expires after thirty
  minutes, and redeeming a reset link exactly once.

Values the program gets from outside are parameters:
- the current time;
- whether a login session exists and whether a POST or a mail succeeded;
- the result of a sentence fetch;
- the random bytes of a token;
- the password hash function;
- the id of a new document;
- the square root.

`Math.random` becomes a nondeterministic choice. `Math.round(n / d)` becomes exact integer
rounding, half up (`Common.RoundDiv`). Strings are sequences of characters and
timestamps are integers (milliseconds).

## Model

| member | source | states |
|---|---|---|
| Common.RoundDiv | src/components/TypingGame.js:93 | `Math.round(n/d)` for d > 0: the result r is the nearest integer to n/d, a half rounding up (d(2r-1) <= 2n < d(2r+1)); non-negative for n >= 0 |
| Common.CeilDiv | src/pages/result.js:127 | `Math.ceil(n/d)` for d > 0: the least r with n <= d·r |
| Common.RoundDivBetween | src/pages/result.js:64 | a quotient lying between two integers rounds to a value between them |
| Common.RoundDivUnique | src/components/TypingGame.js:93 | the nearest-integer property determines the rounded value |
| TypingGame.TimerInSeconds | src/components/TypingGame.js:19-20 | "15s"→15, "30s"→30, "1m"→60; only Unlimited has no limit (Infinity) |
| TypingGame.MatchesBelow | src/components/TypingGame.js:83-85 | the count of matches among the first k typed characters is at most min(k, sentence length) |
| TypingGame.CorrectChars | src/components/TypingGame.js:83-85 | defines the score as the matches over the whole typed text; CorrectCharsIsMatchCount proves it is the number of equal positions |
| TypingGame.MatchesBelowIsCount | src/components/TypingGame.js:83-85 | the counting recursion equals the size of the set of matching positions below k |
| TypingGame.CorrectCharsIsMatchCount | src/components/TypingGame.js:83-85 | the score is the number of indices where the typed text equals the current sentence, and is at most both lengths |
| TypingGame.GreenCharactersAreTheScore | src/components/TypingGame.js:179-190 | the characters coloured correct are exactly the positions the score counts, so their number is the score |
| TypingGame.Classify | src/components/TypingGame.js:179-185 | defines a character's colour: pending past the typed text, else correct or incorrect by equality with the typed character (characterised by ClassifyCases) |
| TypingGame.ClassifyCases | src/components/TypingGame.js:179-190 | a character is pending iff its index is not yet typed, correct iff typed and equal, incorrect iff typed and different |
| TypingGame.ElapsedMs | src/components/TypingGame.js:88 | defines the elapsed time: now minus the start instant, 0 when there is none (or it is 0, which is falsy) |
| TypingGame.Wpm | src/components/TypingGame.js:88-93 | WPM is 12000·correct / max(1000, elapsed ms) rounded to the nearest integer; an elapsed time of at most one second gives 12·correct |
| TypingGame.Accuracy | src/components/TypingGame.js:96-98 | 0 for an empty sentence, otherwise 100·correct/length rounded to the nearest integer |
| TypingGame.AccuracyIsPercentage | src/components/TypingGame.js:96-98 | accuracy is at most 100, and exactly 100 for a non-empty sentence typed without error |
| TypingGame.ScoreRun | src/components/TypingGame.js:80-98 | the posted record scores only the current sentence: score bounded by both lengths, WPM and accuracy from it, accuracy <= 100, the game's difficulty |
| TypingGame.Session.CurrentSentence | src/components/TypingGame.js:80 | defines the current text: the sentence at the current index, "" past the end of the list |
| TypingGame.Session.Running | src/components/TypingGame.js:198 | defines when the text area is enabled and the countdown runs: `started && !finished` |
| TypingGame.Session.constructor | src/components/TypingGame.js:9-28 | initial state: easy, 30 s, idle, index 0, empty text, 30 s left, no start instant; sentences from the fetch (empty when it fails) |
| TypingGame.Session.Configure | src/components/TypingGame.js:23-43 | nothing happens unless difficulty or timer changes; then time left is the new limit, index 0, text empty, not started, not finished, sentences replaced when the fetch succeeds |
| TypingGame.Session.Start | src/components/TypingGame.js:58-64 | the game runs with an empty text area, the full limit and the start instant `now`; the sentence index is kept |
| TypingGame.Session.Type | src/components/TypingGame.js:196-198 | typed text is replaced only while the game runs, and nothing else changes |
| TypingGame.Session.Finish | src/components/TypingGame.js:77-121 | the report scores the current sentence; without a session nothing is posted and started/finished stay true; with one the game returns to idle whether or not the POST succeeds |
| TypingGame.Session.Tick | src/components/TypingGame.js:46-56 | nothing unless running with a finite limit; at 0 the game finishes instead of counting (so time left never goes negative); otherwise time left drops by exactly 1 |
| TypingGame.Session.NextSentence | src/components/TypingGame.js:66-75 | next index with an empty text when one exists; at the last sentence a timed game finishes and an unlimited one stays put (no wrap-around) |
| TypingGame.Session.AutoAdvance | src/components/TypingGame.js:124-130 | in a running game whose typed text is at least as long as the sentence: advance or finish as NextSentence; otherwise nothing changes |
| TypingGame.PerfectSentence | src/components/TypingGame.js:58-130 | a whole game: start, type the only sentence exactly, auto-advance one second later; the posted record has score 3, accuracy 100 and 36 WPM, and the game is back to idle |
| ResultPage.GetCharacterStats | src/pages/result.js:26-33 | a missing object or field reads as 0; a present count is kept |
| ResultPage.OrZero | src/pages/result.js:28 | defines `x || 0` on a count: a missing value (or 0) reads as 0, any other value is kept |
| ResultPage.WithZeroStart | src/pages/result.js:43-45 | a {0, 0} point is put in front exactly when the history is non-empty and starts after 0; the history follows unchanged; empty stays empty |
| ResultPage.Interp | src/pages/result.js:58-65 | defines the inserted point at time t: speed Math.round(cw + (nw - cw)(t - ct)/gap), marked iff t is a multiple of 5 (bounds in InterpBetween) |
| ResultPage.Gap | src/pages/result.js:55-67 | defines what the inner loop inserts: points at ct + 2, ct + 4, … below the next time, none for a gap of 2 or less (shape in GapShape) |
| ResultPage.Segments | src/pages/result.js:49-69 | defines the output after i rounds of the outer loop: each of the first i points followed by its gap |
| ResultPage.Filled | src/pages/result.js:48-72 | defines the filled history: all rounds, then the last point; FillGaps is proved equal to it |
| ResultPage.FillGaps | src/pages/result.js:48-72 | the nested loop's output equals `Filled`: each point followed by the points inserted after it, then the last point |
| ResultPage.PushGap | src/pages/result.js:55-67 | the inner loop pushes exactly the gap's points, in time order, after what was already there |
| ResultPage.GapShape | src/pages/result.js:53-67 | a neighbour gap <= 2 inserts nothing; otherwise the points are at current+2, current+4, …, all before the next time, and no further step fits before it |
| ResultPage.InterpBetween | src/pages/result.js:58-66 | an inserted speed lies between the two neighbours' speeds; the point is marked iff its time is a multiple of 5 |
| ResultPage.GapPointsBetween | src/pages/result.js:53-66 | every inserted point lies strictly between its neighbours in time, an even number of seconds after the first, with speed between theirs |
| ResultPage.SegmentsPrefix | src/pages/result.js:49-69 | the outer loop only appends: each round's output extends the previous round's |
| ResultPage.SegmentsKeep | src/pages/result.js:49-69 | each round's point stays at the position where it was pushed in every later round's output, and these positions increase |
| ResultPage.FilledKeepsOriginals | src/pages/result.js:48-72 | every original point appears in the filled history, at increasing positions |
| ResultPage.FilledEnds | src/pages/result.js:48-72 | the filled history is at least as long as the input, starts with its first point and ends with its last |
| ResultPage.PositiveWpms | src/pages/result.js:75 | the consistency samples are positive and no more than the points |
| ResultPage.PositiveWpmsSamples | src/pages/result.js:75 | a point with speed <= 0 never enters the samples and one with a positive speed always does |
| ResultPage.Sum | src/pages/result.js:78 | the `reduce((a, b) => a + b, 0)` total; a sum of positive samples is at least their number, so the mean is at least 1 |
| ResultPage.SquaredDeviations | src/pages/result.js:79 | the `reduce` of squared deviations from the mean; never negative |
| ResultPage.RoundReal | src/pages/result.js:80 | defines `Math.round` on a real: floor(x + 1/2) |
| ResultPage.Consistency | src/pages/result.js:75-81 | the score is 0 when no point has a positive speed |
| ResultPage.ConsistencyIgnoresNonPositive | src/pages/result.js:75-81 | removing a point with speed <= 0 leaves the consistency score unchanged |
| ResultPage.XTicks | src/pages/result.js:122-129 | interval 1/2/5/10 for time <=30/<=60/<=120/>120; ticks are i·interval, ceil(time/interval)+1 of them, the last at or past the run's length |
| ResultPage.TickInterval | src/pages/result.js:122-125 | the tick spacing 1/2/5/10 for time <=30/<=60/<=120/>120, always positive |
| ResultPage.MaxWpm | src/pages/result.js:134 | the largest speed of the history, attained by some point |
| ResultPage.YUpper | src/pages/result.js:134 | the Y bound is a multiple of 10, at least 100, at or above every speed, and the least such |
| ResultPage.DotInterval | src/pages/result.js:157-160 | dot spacing is 5/10/15/30 seconds, always a positive multiple of 5 |
| ResultPage.HasDot | src/pages/result.js:161 | defines when a point gets a dot: its time is a multiple of the dot spacing (see DottedPointsAreMarked) |
| ResultPage.DottedPointsAreMarked | src/pages/result.js:157-161 | every interpolated point that gets a dot is a marked one |
| SentencePool.OfDifficulty | src/pages/api/sentences.js:23 | exactly the stored sentences of the difficulty, with distinct ids kept |
| SentencePool.Find | src/pages/api/sentences.js:17-23 | the GET's lookup: an absent difficulty is dropped from the filter and matches every stored sentence; a given one matches exactly the sentences of that difficulty; ids stay distinct |
| SentencePool.InheritedUserId | src/pages/api/sentences.js:14-33 | defines the user ids that find an inherited member of the plain object `userSessions` (`constructor`, `toString`, `__proto__`, …) |
| SentencePool.Unused | src/pages/api/sentences.js:33 | exactly the sentences whose id is not in the used set |
| SentencePool.Pool | src/pages/api/sentences.js:29-41 | the unused sentences when some remain, all sentences when none do; never empty for a non-empty input |
| SentencePool.PoolFor | src/pages/api/sentences.js:27-42 | defines the pool of a GET: the named user's pool (unused sentences, or all once used up) when a user id is given, every matching sentence otherwise |
| SentencePool.UsedAfterReset | src/pages/api/sentences.js:30-39 | defines the used set a GET starts from: the user's set (empty when missing), cleared when it covers every matching sentence |
| SentencePool.WithUsed | src/pages/api/sentences.js:54 | defines the used sets after the chosen ids are added to the named user's set; unchanged without a user id |
| SentencePool.FreeIndex | src/pages/api/sentences.js:49-51 | while fewer than n of the n indices are drawn, an undrawn one exists, so the random retry can succeed |
| SentencePool.DrawStep | src/pages/api/sentences.js:51-53 | drawing an index not drawn before keeps the chosen sentences' ids distinct |
| SentencePool.WithUsedStep | src/pages/api/sentences.js:54 | adding one id to the user's set is the same as adding it to the ids already added |
| SentencePool.SentenceService.Get | src/pages/api/sentences.js:17-59 | min(count, pool) distinct sentences from the pool (count 10 by default), where an absent difficulty draws from every sentence; no matching sentence: empty answer and nothing changes; a user id naming an inherited member of `userSessions`: 500 and nothing changes; no user id: no used set created or changed; with one: the set is reset when exhausted and then holds every returned id |
| SentencePool.SentenceService.PreparePool | src/pages/api/sentences.js:27-41 | creates a missing used set, clears it when nothing is unused, and returns the matching pool |
| SentencePool.SentenceService.DrawDistinct | src/pages/api/sentences.js:45-56 | exactly max(0, limit) sentences of the pool with distinct ids, and their ids added to the user's set |
| SentencePool.SentenceService.PickUnused | src/pages/api/sentences.js:50-51 | the random retry ends with an index below n not drawn before |
| SentencePool.SentenceService.MarkUsed | src/pages/api/sentences.js:54 | the id is added to that user's set and no other entry changes |
| SentencePool.SentenceService.Post | src/pages/api/sentences.js:62-70 | a missing text or difficulty gives 400 and nothing is saved; a difficulty outside the schema's enum gives 500 and nothing is saved; otherwise exactly one sentence is appended |
| SentencePool.SentenceService.Handle | src/pages/api/sentences.js:22-76 | GET leaves the sentences alone and answers 200 or 500, POST leaves the used sets alone, other methods give 405; no error answer changes anything |
| EditProfile.OrEmpty | src/components/EditProfileModal.js:5 | a missing value reads as "" |
| EditProfile.InitialForm | src/components/EditProfileModal.js:4-14 | every form field is the record's field, "" when missing |
| EditProfile.HandleChange | src/components/EditProfileModal.js:17-19 | the named field takes the new value and no other field changes |
| EditProfile.RemoveFirst | src/components/EditProfileModal.js:33-36 | `replace("@", "")` removes one character when "@" occurs and is the identity otherwise |
| EditProfile.IndexOf | src/components/EditProfileModal.js:33-36 | the first position holding the character |
| EditProfile.RemoveFirstCutsFirst | src/components/EditProfileModal.js:33-36 | only the first "@" is removed: the result is the string cut around its first occurrence |
| EditProfile.NormalizeUrlsFields | src/components/EditProfileModal.js:26-41 | website, Twitter (first "@" dropped) and GitHub get their prefixes when non-empty and not starting with "http"; other values and the name, bio, date of birth and location are kept; every non-empty link then starts with "http" |
| EditProfile.NormalizeUrls | src/components/EditProfileModal.js:26-41 | defines the data handed to the save; its field-by-field outcome is NormalizeUrlsFields, and it is idempotent (NormalizeUrlsIdempotent) |
| EditProfile.NeedsPrefix | src/components/EditProfileModal.js:28-39 | defines the test `x && !x.startsWith("http")` each link field passes before it is prefixed |
| EditProfile.Normalized | src/components/EditProfileModal.js:28-41 | defines one link field's outcome: prefix plus body when it needs a prefix, the field itself otherwise |
| EditProfile.NormalizeUrlsIdempotent | src/components/EditProfileModal.js:26-41 | normalising twice equals normalising once |
| EditProfile.PrefixStartsWithHttp | src/components/EditProfileModal.js:29 | a link built on an "https://" prefix starts with "http" |
| EditProfile.ProfileEditor.constructor | src/components/EditProfileModal.js:4-15 | the form starts as the initial form and is not saving |
| EditProfile.ProfileEditor.Change | src/components/EditProfileModal.js:17-19 | the form becomes `HandleChange` of the old form |
| EditProfile.ProfileEditor.BeginSubmit | src/components/EditProfileModal.js:21-43 | saving is shown and the data handed to the save is the normalised form |
| EditProfile.ProfileEditor.EndSubmit | src/components/EditProfileModal.js:46-48 | saving ends whether the save succeeded or threw |
| GameOrder.Insert | src/pages/stats.js:43-50 | inserting into a sorted list keeps it sorted and adds exactly that record |
| GameOrder.Sort | src/pages/stats.js:43-50 | the result is sorted by timestamp in the given order and is a permutation of the input |
| GameOrder.SortedSplit | src/pages/stats.js:48-50 | in a sorted list everything before a cut may precede everything after it |
| Stats.Page | src/pages/stats.js:22-50 | login prompt iff no session; no-data message iff a session and no games; otherwise the chart is an ascending permutation of the games and the table min(15, n) games newest first, the rest being left out |
| Stats.Recent | src/pages/stats.js:48-50 | defines the table: the games sorted newest first, cut to the first fifteen (proved in Page, LeftOutNoNewer) |
| Stats.LeftOut | src/pages/stats.js:48-50 | defines the games past the fifteenth of that order, the ones the table does not show |
| Stats.LeftOutNoNewer | src/pages/stats.js:48-50 | no game left out of the table is newer than a game in it |
| Stats.InTableOrOlder | src/pages/stats.js:48-50 | every game is in the table or no newer than every game in it |
| Games.OwnedBy | src/pages/api/games.js:31 | exactly the records owned by the key |
| Games.OwnerKey | src/pages/api/games.js:18 | defines the owner key: the session user's id when present, its email otherwise |
| Games.OwnedByAppend | src/pages/api/games.js:17-24 | appending a record changes only its owner's records, by that record at the end |
| Games.GameStore.Handle | src/pages/api/games.js:5-40 | no session: 401 and no change; POST appends one record owned by the session's id (email when there is none) stamped now; GET lists exactly the caller's records newest first; other methods 405; only a 200 answer can change the store, and other owners' records never change |
| Users.FindById | src/pages/api/forgot-password/send-reset.js:24 | the position of the record with the id; nothing for a missing id or when no record has it |
| Users.IndexWithId | src/pages/api/forgot-password/send-reset.js:24 | the position of a record with the id, or nothing when none has it |
| Users.ReplaceKeepsUnique | src/pages/api/forgot-password/reset-password.js:39-46 | updating a record's other fields keeps ids, usernames and emails unique |
| Registration.FirstClash | src/pages/api/register.js:20 | whether some record has that username or email: a clashing record (the first in stored order), nothing exactly when no record clashes |
| Registration.MissingField | src/pages/api/register.js:15 | defines the 400 test: some field is absent or empty |
| Registration.DuplicateMessage | src/pages/api/register.js:23 | defines the message: the username one when the found record has that username, the email one otherwise (see DuplicateMessageIsAccurate) |
| Registration.DuplicateMessageIsAccurate | src/pages/api/register.js:21-25 | for whichever clashing record is returned: "Username already exists" only when that username is taken; "Email already exists" only when that record has the email under another username; a free username always gives the email message |
| PasswordReset.HexDigit | src/pages/api/forgot-password/send-reset.js:28 | the digit of a value below 16 is a lowercase hex digit |
| PasswordReset.DigitValue | src/pages/api/forgot-password/send-reset.js:28 | a hex digit's value is below 16 |
| PasswordReset.HexEncode | src/pages/api/forgot-password/send-reset.js:28 | two lowercase hex digits per byte |
| PasswordReset.HexDecode | src/pages/api/forgot-password/send-reset.js:28 | a decoded string has half as many bytes as characters |
| PasswordReset.HexRoundTrip | src/pages/api/forgot-password/send-reset.js:28 | decoding the token gives back the random bytes |
| PasswordReset.TokenProperties | src/pages/api/forgot-password/send-reset.js:28 | different bytes give different tokens; 32 bytes give 64 characters |
| PasswordReset.TakeUntil | src/pages/api/forgot-password/send-reset.js:52 | the part before the first separator is a prefix |
| PasswordReset.TakeUntilStops | src/pages/api/forgot-password/send-reset.js:52 | reading up to a separator that the first part lacks gives that part |
| PasswordReset.NoAmpersand | src/pages/api/forgot-password/send-reset.js:28 | a hex token holds no "&" |
| PasswordReset.ResetUrl | src/pages/api/forgot-password/send-reset.js:52 | defines the link: base URL, reset path, token, "&id=", user id (read back by ResetUrlRoundTrip) |
| PasswordReset.ReadLink | src/pages/reset-password.js:6 | reads back a link of the mailed shape: it must start with base URL and reset path, then its query is read by ReadQuery (round trip in ResetUrlRoundTrip) |
| PasswordReset.ReadQuery | src/pages/reset-password.js:6 | reads back a query of the mailed shape: the token up to the first "&", then the id as everything after "&id=", undecoded; nothing without "&id=" after the token |
| PasswordReset.ReadQueryOf | src/pages/api/forgot-password/send-reset.js:52 | a query of a token without "&" followed by "&id=" and an id reads back as that token and id |
| PasswordReset.ResetUrlRoundTrip | src/pages/api/forgot-password/send-reset.js:52 | the mailed link reads back, with ReadLink, as exactly the token and the user id, for every id |
| PasswordReset.FindByLink | src/pages/api/forgot-password/reset-password.js:28-32 | a record whose id and token match and whose expiry is strictly after now; nothing exactly when the link is not valid |
| PasswordReset.LinkMatches | src/pages/api/forgot-password/reset-password.js:28-32 | defines the filter on string values: same id, same stored token, expiry strictly after now |
| PasswordReset.LinkValid | src/pages/api/forgot-password/reset-password.js:28-34 | defines a valid link: some record matches the filter |
| PasswordReset.PresentValue | src/pages/api/forgot-password/reset-password.js:20 | defines the truthiness of a body field: absent and "" are falsy, an object is truthy |
| PasswordReset.FieldMatches | src/pages/api/forgot-password/reset-password.js:28-30 | defines how `findOne` compares one filter value: a string by equality, `{"$ne": null}` against any present value |
| PasswordReset.LinkMatchesAsWritten | src/pages/api/forgot-password/reset-password.js:28-32 | defines the filter as written, for string and object body values |
| PasswordReset.FindByLinkAsWritten | src/pages/api/forgot-password/reset-password.js:28-32 | the first record the filter as written matches; nothing exactly when none does |
| PasswordReset.TokenNotNeededAsWritten | src/pages/api/forgot-password/reset-password.js:18-32 | as written, a token `{"$ne": null}` finds a user holding the unexpired token "secret" though no other string token is valid; with an object id as well, it finds the first such user |
| PasswordReset.FindByLinkChecked | src/pages/api/forgot-password/reset-password.js:18-32 | corrected lookup: a record is found only for string id and token with a valid link, and it matches that id and stored token; nothing exactly otherwise |
| PasswordReset.CheckedAgreesOnText | src/pages/api/forgot-password/reset-password.js:28-32 | on string id and token the corrected lookup finds the same record as the one written |
| Accounts.UserStore.Register | src/pages/api/register.js:12-37 | 405 for non-POST; 400 "All fields are required"; on a clash, 400 with the message of some clashing record (the database does not fix which) and no change; 500 when the new id is taken; otherwise one record with the hashed password is appended and the reply has id, username and email only; any answer but 201 changes nothing; uniqueness is kept |
| Accounts.UserStore.SendReset | src/pages/api/forgot-password/send-reset.js:15-81 | 405; 404 for an unknown id with no change; otherwise the 64-character token and expiry now + 30 min overwrite the earlier ones before the mail, the link carries them, 200 or 500 by the mail outcome, and the link is valid exactly until the expiry |
| Accounts.UserStore.ResetPassword | src/pages/api/forgot-password/reset-password.js:14-52 | 405; 400 when a field is absent or empty (an object counts as present); success iff the token and id are strings and the link is valid now; a failure changes nothing; success changes only that user's password, token and expiry, and the link is never valid again |
| Accounts.ResetLinkWorksOnce | src/pages/api/forgot-password/reset-password.js:43-44 | a link issued and redeemed before expiry resets the password once; the same link is then refused |
| Accounts.AppendKeepsUnique | src/pages/api/register.js:20-28 | appending a record that clashes with no one keeps usernames, emails and ids unique |
| Accounts.OnlyLinkOf | src/pages/api/forgot-password/send-reset.js:29-34 | with unique ids, a stored token makes the link valid exactly before its expiry |
| Accounts.NoLinkAfterClear | src/pages/api/forgot-password/reset-password.js:43-44 | once the user's token is cleared no link for that user is valid at any time |

## Left out

- TypingGame.Session: the `sentence` state (set from the first fetched text, TypingGame.js:36) is never read by the game logic and is not modelled.
- TypingGame.Session.Configure: one call is one run of the effect; the fetch is asynchronous in the program and its result is a parameter applied at once.
- TypingGame.Session.Finish: the POST is a parameter outcome; the alert and console messages are not modelled.
- TypingGame.Wpm: the guard `minutes > 0 ? … : 0` can never choose 0, since the elapsed time is at least one second; the model has no such branch.
- TypingGame.CorrectChars: the program spreads the typed text into code points but indexes the sentence by code units; the model treats both as sequences of characters.
- ResultPage.Consistency: the square root is a parameter and the arithmetic is on reals; only the zero-sample guard and the sample filter are stated, not the value.
- ResultPage: the raw-speed factor 1.05, the Y-axis tick list, `JSON.parse` of the query and all rendering are not modelled.
- SentencePool.SentenceService.PickUnused: the retry loop of `Math.random` is a single nondeterministic choice of an unused index, so how often it retries is not modelled.
- SentencePool.SentenceService.Get: `count` arrives as a query string; a value that is not a number is not modelled.
- SentencePool.SentenceService.Get: `count` is an integer. A fractional count such as 2.5 makes the program draw ceil(count) sentences, which is not modelled.
- SentencePool.SentenceService.Get: a query parameter given twice arrives as an array. That case is not modelled.
- SentencePool: database and connection failures (500) are not modelled except the POST validation failure.
- GameOrder.Sort: sorting is a stable insertion sort. The database's order for equal timestamps is unspecified, and stability is not proved.
- ResultPage: history times and speeds are whole numbers, as the game records them. Fractional times or speeds are not modelled.
- Games.GameStore.Handle: the record's fields are taken as given. The `insertOne` result object and database errors are not modelled.
- Users: database errors, such as an id that is not a valid ObjectId or a failed save, are not modelled. The program would answer 500 for them.
- Accounts.UserStore.Register: bcrypt is a hash function parameter, and its salting is not modelled.
- Accounts.UserStore.Register: body values are taken as strings. A JSON object in `username` or `email` would be read by `findOne` as a query operator, and that is not modelled.
- Accounts.UserStore.ResetPassword: `password` is taken as a string; a non-string value makes bcrypt throw (500), which is not modelled. A token or id that is an object is modelled only as `{"$ne": null}`, and the method follows the corrected lookup (see Findings).
- PasswordReset.ReadQuery: it reads only links of the mailed shape, token first and the id taken undecoded up to the end. The page's router also accepts the parameters in any order, percent-decodes them, reads "+" as a space, stops at "#" and ends the id at the next "&"; that parsing is not modelled. So ResetUrlRoundTrip carries over to the page only for ids without "&", "#", "%" or "+", which holds for the stored hex ObjectIds.
- Accounts.UserStore.SendReset: the random bytes, the base URL and the mail outcome are parameters. The mail's content is not modelled.
- EditProfile: the date-of-birth formatting (`toISOString`) is taken as done. The `onSave` call itself is outside the model; `EndSubmit` runs whatever its outcome.
- Dates are integer millisecond timestamps. Floating-point rounding is modelled exactly, as rational rounding half up.

## Findings

| source | as written | input that shows it | evidently intended | confidence | as-written member | corrected member |
|---|---|---|---|---|---|---|
| src/pages/api/forgot-password/reset-password.js:18-32 | the body's `token` and `id` go into the `findOne` filter unchecked, so a JSON object is read as a query operator | body `{"token": {"$ne": null}, "id": "u1", "password": "x"}` while user u1 holds the unexpired token "secret" | only a string token equal to the stored one resets the password | not executed | PasswordReset.TokenNotNeededAsWritten | PasswordReset.FindByLinkChecked |
