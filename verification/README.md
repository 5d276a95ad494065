# Verified model of vertex-api

A Dafny model of the parts of vertex-api whose guarantees are about more than one call: the rate limiter
and its DynamoDB storage, the one-time credentials (exchange codes, emailed codes, OAuth state), account
matching at provider login, and the text and media algorithms. `dafny verify dfyconfig.toml` checks everything.

| file | models |
|---|---|
| `ThrottleWindow.dfy` | the rate-limiting decision and what a whole run of requests gets |
| `ThrottlerStore.dfy` | every interleaving of concurrent `increment` calls on one key, as a transition system |
| `ThrottlerCollection.dfy` | DynamoDB's TTL deletion of items |
| `ThrottlerStorage.dfy` | the `increment` retry loop itself, as a class; its effect is a run of the transition system |
| `WrapText.dfy`, `Strings.dfy` | greedy line filling over `split` and `join` |
| `MarkdownImages.dfy` | the Markdown image scanner and bucket keys |
| `Posts.dfy` | media bookkeeping over the life of a post, as a class |
| `ExchangeCodes.dfy` | single-use OAuth exchange codes under full interleaving, as a transition system and a class |
| `Otp.dfy` | emailed sign-in codes, as a class with a log of its history |
| `Hashing.dfy` | the one property assumed of SHA-256 |
| `Users.dfy`, `Accounts.dfy` | the users table and Google/GitHub sign-in and linking, as a class |
| `OAuthState.dfy` | the per-provider OAuth attempt cookie, as a class |

## How to read it

- A transition system is a total function `Do`: a step that is not possible in a state changes nothing, so
  every sequence of steps is a run and every theorem about `Run` is about all interleavings. Fields called
  `log`, `commits`, `replies`, `began` and `drawn` are history: the protocols never read them, except that
  `drawn` stands for the random generator never repeating a code.
- A class carries the source's mutable state. What other requests do during an `await` is a parameter
  (`rounds`, `beforeCheck`, `meanwhile` and the like), and each method's postcondition ties its whole effect
  to the transition system or to a function of the old state.
- Clocks, random values and failures of stores and mail are parameters. Time never runs backwards. SHA-256 is
  a parameter `hash`, assumed injective where that matters; a signed cookie is a constructor, and where it may
  come from is part of each statement.

## What was found

- With a limit of at least 1, an interval of T > 0 milliseconds lets at most `limit * (ceil((T - 1) / period) + 1)`
  requests of one key through, one less unless the period, the smaller of `ttl` and `blockDuration`, divides T - 1.
  That is exact for every configuration and every T: some run gets that many through. Over n whole periods of 2 ms
  or more it is `limit * (n + 1) - 1`.
- A block ends when the window ends, if that comes first. With a limit of at least 1 and `blockDuration >= ttl`, the
  app's default, the `Retry-After` a refused client is given points past the moment it would be let in again, unless
  the two are equal and the request over the limit came in the millisecond the window opened
  (`LongBlockIsRarelyHonoured`; `ReportedWaitCanBeTooLong` is an input).
- Three is the most calls that are certain to be counted under contention: of any number of calls, all but three can
  go uncounted without a single store error (`OnlyThreeNeedBeCounted`).
- A TTL deletion leaves every later answer and commit as it was exactly when no call is between its read and its
  write (`DeletionIsInvisibleExactlyWhen`); there it can make a count disappear (`CollectionInsideAnAttemptLosesACount`).
- The comment at src/auth/strategies/google.strategy.ts:183 says the Google id is matched before the email. The query is an
  OR without an order, so the database may return the email's row although another row holds the id; the update
  then violates the unique column and the login fails. `LoginIsSafeExactlyWhenUnambiguous` gives the exact condition
  and `AmbiguousLoginCanFail` an input. The model follows the code.
- The comment at src/auth/strategies/google.strategy.ts:193-194 says a login must not clobber a name or avatar the user
  edited. The update writes what was read before it, so an edit made in between is lost (`EditDuringLoginIsLost`).
  `EditSurvivesLoginExactlyWhen` and `EditSurvivesLinkExactlyWhen` give the exact condition; without such an overlap
  the promise holds over every run (`ProfilesAreKept`).
- The signature of the OAuth cookie binds neither a browser nor a start. An accepted callback answers this browser's
  own latest start exactly when no cookie was brought in from elsewhere after it (`AcceptedAnswersOwnStartExactlyWhen`;
  `CallbackCanAnswerAnotherStart` is an input).
- src/auth/strategies/github.strategy.ts:39-46 looks for the unique-violation code on the thrown error. As
  src/posts/posts.service.ts:36-40 says, Drizzle puts that code one level down, on the cause. So the email-conflict
  answer is never given, and a colliding GitHub sign-up gets the general failure (`FirstLoginSucceedsExactlyWhen`).
- A login found by its address replaces another id of that provider on the account; the former id, coming back under
  a new address, gets an account of its own (`FormerProviderIdGetsAnotherAccount`). `ProviderIdLeavesExactlyWhen` and
  `ProviderIdStays` say exactly when an id stays.

## Model

| member | source | states |
|---|---|---|
| ThrottleWindow.AdvanceThrottleWindow | src/common/throttler/throttle-window.ts:47-92 | the step-by-step decision leaves the window and reports the record that the specification functions give, for every current window and clock |
| ThrottleWindow.RefinesEpochs | src/common/throttler/throttle-window.ts:54-91 | over every run, every field of every answer is read off the request times: refused exactly when the rank in its epoch exceeds the limit, the counter the rank capped one past the limit, and the seconds left of window and block |
| ThrottleWindow.EpochWindowIsStored | src/common/throttler/throttle-window.ts:54-76 | the stored window after any request, in closed form over the request times |
| ThrottleWindow.LongBlocksLeaveWindowsAlone | src/common/throttler/throttle-window.ts:44-46 | with a block no shorter than the window, the epochs of every run are those read off with `ttl` alone: one opens exactly at the first request `ttl` or more after the previous opening |
| ThrottleWindow.AdmittedWithinBudget | src/common/throttler/throttle-window.ts:62-76 | the counting bound, for every configuration, run and interval |
| ThrottleWindow.BudgetIsReached | src/common/throttler/throttle-window.ts:62-76 | the bound is the exact maximum: for every configuration and every length some run uses up all of it |
| ThrottleWindow.BudgetOfWholePeriods | src/common/throttler/throttle-window.ts:62-76 | over n whole periods of at least 2 ms the maximum is n + 1 limits less one, so twice the limit less one for one window |
| ThrottleWindow.BlockIsWaitedOut | src/common/throttler/throttle-window.ts:38-42 | any number of requests during a block change nothing, and the first one after it opens a fresh window |
| ThrottleWindow.ReportedBlockIsHonoured | src/common/throttler/throttle-window.ts:62-66 | a key is refused until its reported block end if and only if the block does not outlast the window, or the limit is 0 |
| ThrottleWindow.RefusedUntilReportedEnd | src/common/throttler/throttle-window.ts:62-89 | the same on the request times of every run: exactly when the request over the limit came early enough for its block to end inside its window, or the limit is 0 |
| ThrottleWindow.LongBlockIsRarelyHonoured | src/common/throttler/throttle-window.ts:44-76 | with a block no shorter than the window, exactly when both are equally long and the request over the limit came in the instant the window opened |
| ThrottleWindow.ReportedWaitCanBeTooLong | src/common/throttler/throttle-window.ts:62-89 | an input for which it is not: a client told to wait a second is let in after half of it |
| ThrottleWindow.ReportedSeconds | src/common/throttler/throttle-window.ts:80-90 | reported seconds never point before the stored instant and less than a second past it |
| ThrottlerStore.StoredWindowIsFold | src/common/throttler/dynamodb-throttler-storage.ts:66-87 | in every interleaving the stored window is the fold of the decision over the committed writes, their clocks never decrease, and a call's write condition holds exactly while it holds the current item |
| ThrottlerStore.RunKeepsInv | src/common/throttler/dynamodb-throttler-storage.ts:56-118 | the invariant behind it: commit order, one version per commit, one commit per call, how current each snapshot is |
| ThrottlerStore.AnswersReportCommits | src/common/throttler/dynamodb-throttler-storage.ts:56-118 | in every interleaving, each call that returned has one reply with the record it returned; a counted one belongs to the one commit of its call, is dated by its clock and carries, in every field, the decision the committed clocks call for; any other fails open |
| ThrottlerStore.EverythingIsDated | src/common/throttler/dynamodb-throttler-storage.ts:66-87 | in every run, deletions included, a decision is dated by its call's own sampling of the clock, its landing by its own write, and a fail-open answer by the step that ends the call |
| ThrottlerStore.GivingUpMeansOvertaken | src/common/throttler/dynamodb-throttler-storage.ts:66-91 | a call that gave up was overtaken by at least three writes of different other calls |
| ThrottlerStore.AtLeastThreeAreCounted | src/common/throttler/dynamodb-throttler-storage.ts:66-91 | without store errors at least min(n, 3) of n finished calls are counted, and all of them when n is at most 3 |
| ThrottlerStore.OnlyThreeNeedBeCounted | src/common/throttler/dynamodb-throttler-storage.ts:15-20 | so three is exact: for every n of at least 3 and every starting item, some run of n finished calls without store errors counts just three |
| ThrottlerStore.PassedWithinBudget | src/common/throttler/dynamodb-throttler-storage.ts:80-117 | over every concurrent run, store errors included, the answers that let a request pass in an interval are at most the key's budget plus the fail-open answers |
| ThrottlerStore.LandedWithinBudget | src/common/throttler/dynamodb-throttler-storage.ts:66-79 | dated by when writes land, at most one more |
| ThrottlerStore.FailOpenIsAFirstHit | src/common/throttler/dynamodb-throttler-storage.ts:112-117 | the fail-open answer lets the request pass with one hit and the window rounded up to seconds; it is that of a fresh window's first hit if and only if the limit is at least 1 |
| ThrottlerStore.LandedErrorCounts | src/common/throttler/dynamodb-throttler-storage.ts:80-117 | a write whose request failed may have landed: the caller fails open either way, and the counter has moved exactly if it landed |
| ThrottlerCollection.CollectionIsInvisible | src/common/throttler/dynamodb-throttler-storage.ts:147-164 | any number of TTL deletions leaves every answer and every committed write as without them, provided those that find an item fall between attempts |
| ThrottlerCollection.DeletionIsInvisibleExactlyWhen | src/common/throttler/dynamodb-throttler-storage.ts:66-87 | and no weaker condition would do: in every state any run can reach, deleting the item changes no continuation if and only if no call is between its read and its write |
| ThrottlerCollection.AnswersDespiteCollection | src/common/throttler/dynamodb-throttler-storage.ts:56-118 | with deletions between attempts every answer is still the one the committed clocks call for |
| ThrottlerCollection.WithinBudgetDespiteCollection | src/common/throttler/dynamodb-throttler-storage.ts:80-164 | so the budgets above hold in every concurrent run with such deletions |
| ThrottlerCollection.ExpiryIsAfterTheWindow | src/common/throttler/dynamodb-throttler-storage.ts:152-153 | an item becomes collectable an hour after its window ended, rounded up to the second |
| ThrottlerCollection.CollectionInsideAnAttemptLosesACount | src/common/throttler/dynamodb-throttler-storage.ts:166-173 | why deletions inside an attempt are excluded: a stale version 1 matches and a count is lost |
| ThrottlerStorage.DynamoDbThrottlerStorage.Increment | src/common/throttler/dynamodb-throttler-storage.ts:56-118 | the retry loop, whatever happens around it, is a run of the transition system with at most three attempts; it tries again exactly when a condition was lost without a store error, ends at the first count or store error, and gives up after three losses |
| ThrottlerStorage.NamedLimitsAreSeparate | src/common/throttler/dynamodb-throttler-storage.ts:63 | limits with colon-free names never share an item |
| WrapText.WrapIsOptimal | src/auth/email/wrap-text.ts:1-9 | the lines join back to the paragraph, a line over the width is one word, and no breaking has fewer lines, nor as many with a shorter last line |
| WrapText.WrapIsTheGreedyBreaking | src/auth/email/wrap-text.ts:2-8 | of all breakings the result is the one, and the only one, in which no line could have taken the first word of the next |
| Strings.SplitJoin | src/auth/email/wrap-text.ts:2 | splitting undoes joining on pieces without the separator |
| Strings.JoinSplit | src/auth/email/wrap-text.ts:2 | joining undoes splitting on every text |
| MarkdownImages.BodyAtIsLazy | src/uploads/uploads.service.ts:5 | the scanner finds a match exactly where the pattern, as a relation, has one, and takes the shortest alt text |
| MarkdownImages.ScanIsMatchAll | src/uploads/uploads.service.ts:59-63 | the scanner returns the leftmost, lazy, non-overlapping matches of the pattern |
| MarkdownImages.MatchAllExists | src/uploads/uploads.service.ts:59-63 | every text has such a list of matches, so the previous row is about every text |
| MarkdownImages.ImageSpeltOut | src/uploads/uploads.service.ts:5 | what the pattern matches, in literal characters |
| MarkdownImages.KeyExactlyWhen | src/uploads/uploads.service.ts:51-57 | a URL has a key if and only if it is the prefix followed by that key |
| MarkdownImages.RoundTrip | src/uploads/uploads.service.ts:59-66 | text and images rendered in turn read back in order and with repeats: the keys, put behind the prefix, are one by one the image URLs that start with it |
| Posts.CollectMediaKeys | src/posts/posts.service.ts:248-281 | the loops return every referenced key once and no other |
| Posts.MediaKeysAreTheReferences | src/posts/posts.service.ts:248-281 | a key is collected if and only if the prefix and the key are the URL of an image in one of the three contents or, for a key that is not empty, one of the three covers |
| Posts.MediaIsConserved | src/posts/posts.service.ts:165-246 | over any life of a post, what was ever referenced is what the row references now or was passed to `deleteFiles`; no step passes a key its row still references, a failed update passes none, a removal all |
| Posts.UntouchedFieldsKeepTheirMedia | src/posts/posts.service.ts:221-228 | a partial update never passes on media of a field it does not mention |
| Posts.ColumnIsAsLastGiven | src/posts/posts.service.ts:82-195 | over any life every content and cover column holds what the last successful creation or update that mentions it gave |
| Posts.PublishedIsAsLastSaid | src/posts/posts.service.ts:186-195 | a post is live or not as the last successful operation to say so said; a creation that does not say makes a draft |
| Posts.DateIsOfFirstPublication | src/posts/posts.service.ts:83-90 | over any life the publication date is the time of the operation that first set the post live since its creation, and missing if and only if there is none |
| Posts.PublicationDateIsStampedOnce | src/posts/posts.service.ts:179-184 | once stamped, the publication date survives every later edit |
| Posts.LivePostsHaveADate | src/posts/posts.service.ts:83-90 | a published post always has its publication date |
| Posts.PostsService.Create | src/posts/posts.service.ts:78-109 | the new row, which is the answer, or no change when the transaction fails |
| Posts.PostsService.Update | src/posts/posts.service.ts:165-231 | the new row, other rows untouched, and that exactly the keys the old row referenced and the new one does not are passed on; none when the update fails |
| Posts.PostsService.Remove | src/posts/posts.service.ts:233-246 | the row is gone and all its keys are passed on |
| Posts.PostsService.DeleteMediaKeys | src/posts/posts.service.ts:283-295 | one request with the keys, and none for an empty list |
| ExchangeCodes.TokenHistory | src/auth/auth.service.ts:150-183 | in every interleaving a token's code was stored once, its exchange was the first to present the code since, its user was not deleted before that, and the expiry check came at most 60 000 ms after minting |
| ExchangeCodes.OneTokenPerCode | src/auth/auth.service.ts:151-160 | a code yields at most one token |
| ExchangeCodes.ClaimsAreCurrent | src/auth/auth.service.ts:170-182 | for every logged token, id, email, role, name and avatar are those of the user row at the very step that issues it |
| ExchangeCodes.TokenIsCurrent | src/auth/auth.service.ts:170-201 | so is the token the exchange answers, in every interleaving: it carries the role Admin if and only if the row does at that step |
| ExchangeCodes.ExchangeSucceedsExactlyWhen | src/auth/auth.service.ts:150-183 | after any history and with any requests in between, an exchange yields a token if and only if its code was pending when presented (stored, not presented, user not deleted since), at most 60 000 ms old at the check, and its user there at the lookup |
| ExchangeCodes.UndisturbedExchangeSucceedsExactlyWhen | src/auth/auth.service.ts:150-183 | with nothing in between, a pending code at most 60 000 ms old is all it takes |
| ExchangeCodes.RunKeepsPending | src/auth/auth.service.ts:121-148 | the invariant behind it: no prune or other request removes a stored code that is still in time |
| ExchangeCodes.PruningIsInvisible | src/auth/auth.service.ts:130-148 | erasing every prune leaves the outcome and claims of every exchange unchanged |
| ExchangeCodes.PruneTidiesUp | src/auth/auth.service.ts:136-140 | a prune removes exactly the rows that had expired at its clock |
| ExchangeCodes.RunKeepsInv | src/auth/auth.service.ts:121-183 | what every interleaving keeps: stored rows are unpresented, and each exchange's progress rests on its history |
| ExchangeCodes.AuthService.CreateOAuthExchangeCode | src/auth/auth.service.ts:121-148 | minting with other requests in between is exactly this run: insert, then prune at the clock read after it, unless the insert or the prune fails; it succeeds if and only if the user exists at the insert |
| ExchangeCodes.AuthService.ExchangeOAuthCode | src/auth/auth.service.ts:150-183 | exchanging with other requests in between is exactly this run: delete, check and, if that passes, look up; the answer is the exchange's final phase |
| Otp.AcceptedExactlyWhen | src/auth/otp.service.ts:84-123 | over all histories, a guess is accepted if and only if it is the code last issued to the address, was sent, not accepted before, at most ten minutes old, with fewer than five other texts guessed since |
| Otp.EveryCallIsReadOffTheLog | src/auth/otp.service.ts:37-123 | the table refines the log: what any call does, and each of the five outcomes of a guess, is read off the texts and times of earlier calls alone |
| Otp.GuessesAreReadOffTheLog | src/auth/otp.service.ts:84-123 | every guess in any history was answered as the log before it reads |
| Otp.TurnedAwayExactlyWhen | src/auth/otp.service.ts:42-46 | over all histories, a request is turned away if and only if the address's last code is still alive and less than 60 000 ms old |
| Otp.FiveGuessesPerCode | src/auth/otp.service.ts:104-123 | every code ever issued is compared with at most five guesses and accepted at most once |
| Otp.FiveTriesPerCode | src/auth/otp.service.ts:103-123 | counted by text: no guess after the fifth at a code is compared with it, and one is accepted if and only if it is one of the first five, the code and in time, after other texts in time |
| Otp.HashIsOfOneCode | src/auth/otp.service.ts:24-26 | a stored hash fits one code at one address only |
| Otp.EarlyResendMeansRemoval | src/auth/otp.service.ts:37-81 | two codes issued to one address less than 60 000 ms apart: the first was not sent, was accepted, or met at least six verifications in between |
| Otp.CodesWithinPace | src/auth/otp.service.ts:37-123 | over all histories, the codes issued to one address in an interval are at most one per started minute, plus the failed sends, the acceptances and a sixth of the guesses turned down in it |
| Otp.AttemptsStayInRange | src/auth/otp.service.ts:104-116 | a row's attempts stay within 0 and 5 |
| Otp.RunKeepsEmail | src/auth/otp.service.ts:37-123 | the row of an address is what its history says |
| Otp.OtpService.RequestCode | src/auth/otp.service.ts:37-82 | the new table and log of a request, and when it is turned away |
| Otp.OtpService.CheckCode | src/auth/otp.service.ts:84-123 | the new table and log of a verification, and its outcome |
| Otp.OtpService.FindOrCreate | src/auth/otp.service.ts:125-148 | the address's user, or a new one with every column given; nobody else touched |
| Otp.OtpService.VerifyCode | src/auth/otp.service.ts:84-166 | only an accepted code reaches the users table; the answer is a ban or a token with the five claims of the address's user, found or newly created |
| Accounts.LoginKeepsIdentity | src/auth/strategies/google.strategy.ts:186-230 | a login, whatever row was found and whatever happened since, keeps the unique columns, answers with the five claims of the holder of the provider id, who is the previous holder if any, changes no other account and of this one only the provider id, name and avatar, which it sets to what it read or, where that was missing, to the profile's; a first login creates a user with every column given, admin only for the bootstrap address; a failure changes nothing |
| Accounts.LinkKeepsIdentity | src/auth/strategies/github.strategy.ts:147-199 | the same for linking, which signs in the linked user, never touches the name, and sets the avatar to what it read or, where that was missing, to the profile's; when it answers already linked and when user not found |
| Accounts.EditSurvivesLoginExactlyWhen | src/auth/strategies/google.strategy.ts:193-203 | a name or avatar that is there survives a login if and only if it is as it was read, or was missing then and is now what the profile offers |
| Accounts.EditSurvivesLinkExactlyWhen | src/auth/strategies/google.strategy.ts:144-155 | the same for the avatar at a link |
| Accounts.EditDuringLoginIsLost | src/auth/strategies/google.strategy.ts:193-203 | an input for which it does not: a name set while a login is on its way |
| Accounts.ProfilesAreKept | src/auth/strategies/google.strategy.ts:192-203 | over any run of sign-ins that are not overtaken between their read and their write, no name or avatar that is there ever changes |
| Accounts.FoundLoginSucceedsExactlyWhen | src/auth/strategies/github.strategy.ts:209-226 | a login that found a row succeeds if and only if nobody else holds the provider id |
| Accounts.FirstLoginSucceedsExactlyWhen | src/auth/strategies/github.strategy.ts:227-261 | a login that found nobody succeeds if and only if there still is nobody with the address or the id at the insert; otherwise nothing changes and the answer is the general failure, with both providers |
| Accounts.LoginIsSafeExactlyWhenUnambiguous | src/auth/strategies/google.strategy.ts:183-188 | a login succeeds for every row the query may return if and only if no two users match |
| Accounts.AmbiguousLoginCanFail | src/auth/strategies/google.strategy.ts:183-188 | a consistent table and two rows the query may return for it, one of which fails the login |
| Accounts.LinkSucceedsExactlyWhen | src/auth/strategies/google.strategy.ts:128-163 | linking is refused exactly when another user holds the provider id or the user is gone |
| Accounts.AccountsAreStable | src/database/schema.ts:17-34 | over any run of sign-ins with both providers, however stale their reads, no account disappears or changes its id, email, password hash, ban flag or role, and the unique columns stay unique |
| Accounts.ProviderIdLeavesExactlyWhen | src/auth/strategies/google.strategy.ts:192-203 | a sign-in takes a provider id off its account if and only if it signs in to it with another id of that provider |
| Accounts.ProviderIdStays | src/auth/strategies/google.strategy.ts:183-203 | over any run, however stale its reads, an id stays with its account while nobody signs in to that account with another id of the provider, and every successful sign-in with it is to that account |
| Accounts.FormerProviderIdGetsAnotherAccount | src/auth/strategies/google.strategy.ts:186-203 | an input for the other case: two logins after which a former id belongs to a new account |
| Accounts.ProviderStrategy.LoginOrRegister | src/auth/strategies/google.strategy.ts:177-230 | the read may return any matching row; the write and the answer are those of the specification on the table as it is then |
| Accounts.ProviderStrategy.LinkToExistingUser | src/auth/strategies/google.strategy.ts:123-175 | the two reads, the write and the answer of a link |
| OAuthState.CallbackAcceptedExactlyWhen | src/auth/utils/oauth-state.util.ts:179-210 | over every history of a browser with both providers, cookies brought in from elsewhere included, a callback is accepted if and only if it carries the state of the attempt last left in that provider's cookie with no callback since; if a start left it, the callback gets the verifier whose challenge that start sent |
| OAuthState.VisitIsAnswered | src/auth/utils/oauth-state.util.ts:179-210 | over every history, a provider error gets no options whatever else it carries and changes no cookie; a visit with neither error nor code is sent out with its own state and challenge, which are kept; a callback goes on or is refused and loses its cookie; the other provider's cookie stays |
| OAuthState.ErrorsAreInvisible | src/auth/utils/oauth-state.util.ts:186-191 | erasing every provider error from any history leaves each other visit with the same answer and cookies |
| OAuthState.AcceptedAnswersOwnStartExactlyWhen | src/auth/utils/oauth-state.util.ts:104-111 | an accepted callback answers this browser's own latest start if and only if no cookie from elsewhere replaced that start's |
| OAuthState.CallbackCanAnswerAnotherStart | src/auth/utils/oauth-state.util.ts:104-119 | an input for which it does not: a browser that started nothing and holds a cookie made for another |
| OAuthState.NoStartAcceptedTwice | src/auth/utils/oauth-state.util.ts:132-140 | two accepted callbacks of a provider answer what two different actions left in the cookie, the later one between them; two starts, unless a signed cookie came from elsewhere |
| OAuthState.DecodeInvertsEncode | src/auth/utils/oauth-state.util.ts:160-166 | the cookie text decodes to an attempt if and only if it is that attempt's encoding with dot-free nonempty parts |
| OAuthState.CookieIsFromLastTouch | src/auth/utils/oauth-state.util.ts:112-148 | the cookie is what the last action that touched it left |
| OAuthState.OAuthGuard.OauthAuthenticateOptions | src/auth/utils/oauth-state.util.ts:179-210 | the answer and the new cookie jar of one request |
| OAuthState.OAuthGuard.TakeOAuthAttempt | src/auth/utils/oauth-state.util.ts:141-167 | the attempt held and that the cookie is cleared whatever it held |

## Left out

- The library's in-memory throttler: not part of this model, so the claim that the two storages agree is not proved.
- Retries inside the AWS SDK: a write error, landed or not, is one step; a landed write later reported as a lost condition is not modelled.
- Items with missing attributes, which `read` would take as 0: `write` always stores all of them.
- Real SHA-256, argon2, JWT and cookie signing, random generators: parameters with injectivity, unforgeability or freshness.
- Interleaving inside one emailed-code call, whose read and update are separate statements: `Otp` takes each call as one step, with one clock for the API and the table's `created_at`.
- Two updates of one post at once, and media shared by two posts: keys are not reference-counted, so conservation is per post and about what is passed to `deleteFiles`, not about bucket contents.
- Topics, titles, slugs and the friendly slug-conflict message of posts: a failed transaction is one outcome.
- `validate` of the two strategies (name, email and avatar fallbacks): finite case lists over the provider's profile; sign-in starts from the profile they produce.
- Password registration and login, profiles, guards, CRUD services, email layout and bootstrap: one-branch code or plumbing.
- Cookie attributes: the jar keeps one cookie per provider, and losing it at any time stands for its maximum age.
- JavaScript strings are sequences of characters: no surrogate pairs, so lengths of lines count characters instead of
  UTF-16 units, and `statesMatch` compares characters instead of UTF-8 bytes.
