# MotoTaxi screens: registration approval, logins and ride offers

A Dafny model of the browser screens of the MotoTaxi prototype. The model covers the state
they keep in memory and in local storage:

- **Driver registration** (`mototaxista.js`): the chain of form checks. A form that passes
  them appends one pending registration to the queue in local storage.
- **Administrator** (`admin.js`): selects a pending registration and approves or rejects it.
  The record moves to the approved or rejected list with its new status and date. An
  approval also appends a login credential derived from the CNH to the stored driver list.
- **Driver login** (`mototaxista-login.js`): seeds the stored driver list, then runs the
  ordered decision chain: required, under review, not registered, wrong password, not
  approved, success. Only a success writes the session.
- **Passenger screen** (`passageiro.js`): registration (lookup or append under a digits-only
  phone) and login (not found, wrong password, inactive, success).
- **Driver dashboard** (`mototaxista-dashboard.js`): the offered and accepted ride lists and
  the status of each sample ride, through accept, reject, start, finish, cancel and going
  online or offline. Also the statistics figures.

Local storage is the class `Store.LocalStore`, one field per key. A key holding a JSON array
is an `Entry`: `Missing` (null or empty), `Garbled` (text that does not parse to an array),
or `Stored(items)`. `JSON.parse` throwing becomes `ReadList` returning `None`; a handler that
would throw compares as the outcome `Unreadable` (or `Aborted`). Ratings are integer tenths
(4.5 is 45). Clock values (`Date.now()`, `toLocaleString`) are parameters. `trim()` is
`Text.Trim`, which drops ECMAScript white space and line terminators. `replace(/\D/g, '')`
is `Text.Digits`, which keeps only the ASCII digits.

Each screen is one module (`DriverRegistration`, `Admin`, `DriverLogin`, `Passenger`,
`DriverDashboard`), over the shared modules `Wrappers`, `Text`, `Lists` and `Store`. The
module `Workflow` states how the screens fit together through local storage.

Notes on what the code does:

- The registration form also requires a password, and its first length check is the
  password (at least 6 characters). The image type is checked before the size.
- Driver login does not match the typed identifier exactly. The typed input is trimmed and
  stripped of non-digits, then compared with the stored phone. So a credential whose CNH
  holds any non-digit can never be reached (`Workflow.NonDigitCnhCredentialUnreachable`).
- Registration ids are not unique. They are whatever clock value the caller passes, and
  nothing checks them.
- Unreadable stored JSON is not always reset to empty. Only the load routines of the driver
  login and passenger screens reset it. The administrator's `loadData`, approval and both
  login handlers throw instead.
- The three registration lists are not always a partition. An approval whose driver list
  cannot be read has already appended the record to the approved list, and marked the
  pending entry (the same object), when it throws.
- Going offline on the dashboard does not clear the offered list; it only hides it. A
  rejected ride keeps its 'available' status and is offered again on the next reload.
- New passengers are active (`active: true`).

## Model

| member | source | states |
|---|---|---|
| Store.ReadList | mototaxista-login.js:83-86 | a missing key reads as the empty list, unreadable text fails, a stored array reads as itself |
| Store.LocalStore.constructor | mototaxista-login.js:40-41 | a fresh profile has no key set and no session |
| Text.TrimStart | mototaxista.js:47 | the result is a suffix of the input, everything dropped is white space, and it does not start with white space |
| Text.TrimEnd | mototaxista.js:47 | the result is a prefix of the input, everything dropped is white space, and it does not end with white space |
| Text.Trim | mototaxista.js:47-49 | the trimmed string has no white space at either end, is empty exactly when the input is all white space, and is the input itself when the input is unpadded |
| Text.TrimIdempotent | mototaxista-login.js:95-96 | trimming twice is trimming once |
| Text.Digits | mototaxista-login.js:108 | the digit form holds only digits and is no longer than the input |
| Text.DigitsOfChar | mototaxista-login.js:108 | one character is kept exactly when it is a digit; with `DigitsAppend` this fixes the result on every string: every digit, in order |
| Text.DigitsAppend | passageiro.js:203 | the digits of a concatenation are the concatenation of the digits |
| Text.DigitsOfDigitString | passageiro.js:203 | a digit string is its own digit form |
| Text.DigitsIdempotent | passageiro.js:203 | normalising twice is normalising once |
| Text.DigitsOfWhitespace | passageiro.js:190 | white space has no digits |
| Text.DigitsIgnoreTrimStart | passageiro.js:190 | dropping leading white space keeps the digit form |
| Text.DigitsIgnoreTrimEnd | passageiro.js:190 | dropping trailing white space keeps the digit form |
| Text.DigitsIgnoreTrim | passageiro.js:190-203 | trimming before stripping non-digits does not change the result |
| Text.DigitStringIsTrimmed | admin.js:220 | a digit string needs no trimming |
| Lists.IndexOfKey | mototaxista-login.js:108 | the result is -1 exactly when no element holds the key; otherwise it is the first position holding the key |
| Lists.IndexOfKeyAppendFresh | passageiro.js:220 | an element appended behind a list where no element holds its key is the first match for that key |
| Lists.IndexOfKeyAppendKept | admin.js:230 | appending behind a list keeps an earlier first match where it was |
| Lists.IndexOfKeyAppendOther | admin.js:230 | appending an element without the key leaves the first match, or its absence, as it was |
| Lists.RemoveAt | admin.js:244 | `splice(i, 1)` removes the element at `i` and keeps the others in their order |
| Lists.Without | mototaxista-dashboard.js:265 | the filtered list holds no `x`, only elements of the input, and every element other than `x` |
| Lists.WithoutAppend | mototaxista-dashboard.js:265 | filtering a concatenation is the concatenation of the filtered parts, so the kept elements keep their order and multiplicity |
| Lists.WithoutSingleton | mototaxista-dashboard.js:265 | a one-element list keeps its element exactly when it is not `x` |
| Lists.WithoutAbsent | mototaxista-dashboard.js:284-285 | filtering out an id the list does not hold gives the list back |
| Lists.WithoutKeepsNoDuplicates | mototaxista-dashboard.js:288 | filtering keeps a list free of duplicate ids |
| Lists.WithoutThenAppend | mototaxista-dashboard.js:347-351 | accepting a ride and cancelling it again only moves it to the end of the offers: a permutation |
| Lists.MoveHeadToEnd | mototaxista-dashboard.js:347-351 | moving the head of a list to its end keeps the same elements |
| Lists.KeepHead | mototaxista-dashboard.js:347-351 | a head other than the ride stays in front, so a permutation of the tail extends to the list |
| Lists.NoDuplicatesTail | mototaxista-dashboard.js:130 | the tail of a list without duplicates has none and does not hold the head |
| DriverRegistration.CheckImage | mototaxista.js:144-153 | an unlisted type is refused whatever the size; a listed type is refused exactly when larger than 5242880 bytes |
| DriverRegistration.IsValidImageFile | mototaxista.js:140-154 | valid exactly when the type is image/jpeg, image/jpg, image/png or image/gif and the size is at most 5242880 bytes |
| DriverRegistration.Validate | mototaxista.js:47-80 | each error, in both directions, in the order the checks run: blank field or missing photo, password under 6, CNH under 11, document under 5, invalid image; otherwise the trimmed fields |
| DriverRegistration.NewRegistration | mototaxista.js:83-92 | the queued record holds the checked fields, the photo's name and size, the given id and date, status pending and no processing date |
| DriverRegistration.RegistrationScreen.constructor | mototaxista.js:245-250 | a stored queue replaces the empty one; a missing or unreadable key leaves it empty |
| DriverRegistration.RegistrationScreen.HandleRegistration | mototaxista.js:44-98 | the outcome is the validation; only a valid form appends exactly one record at the end of the queue and writes the queue back; a failed check changes nothing |
| DriverRegistration.RegistrationScreen.Enqueue | mototaxista.js:95-98 | one record at the end of the queue, and the stored queue equals the in-memory one |
| Admin.LastFour | admin.js:221 | `slice(-4)`: the last four characters, or the whole of a shorter string |
| Admin.Credential | admin.js:218-226 | the credential's phone and CNH are the record's CNH, password "123456", name "Mototaxista " and the last four CNH characters, status approved, rating 4.5, no rides |
| Admin.IndexOfId | admin.js:206 | -1 exactly when no pending record has the id; otherwise the first record with it |
| Admin.Actionable | admin.js:204-207 | a confirmation acts exactly when an action is chosen, the id is set and not 0, and some pending record has the id |
| Admin.Processed | admin.js:213-214 | the record with the action's status and the processing date, every other field kept |
| Admin.SampleRegistration | admin.js:265-273 | the fixed sample record with the given id and date, status pending |
| Admin.RemoveAtKeepsStatus | admin.js:244 | removing one record keeps every other record's status |
| Admin.AppendProcessedKeepsStatus | admin.js:215 | a record processed by an action can join the list of that action's status |
| Admin.AdminScreen.constructor | admin.js:22-39 | nothing is selected; each list is the stored one up to the first unreadable key, otherwise empty; the counters show the list lengths, or stay 0 when loading threw |
| Admin.AdminScreen.LoadData | admin.js:63-81 | each stored list replaces the in-memory one and a missing key keeps it; unreadable text stops the load there |
| Admin.AdminScreen.SaveData | admin.js:286-290 | all three lists are written back |
| Admin.AdminScreen.UpdateStatistics | admin.js:140-144 | the counters equal the three list lengths |
| Admin.AdminScreen.Refresh | admin.js:46-51 | reload each list up to the first unreadable key; recount when loading succeeded, otherwise the counters keep their old figures |
| Admin.AdminScreen.ShowApprovalConfirmation | admin.js:150-155 | selects approval of the id only when a pending record has it; otherwise nothing changes |
| Admin.AdminScreen.ShowRejectionConfirmation | admin.js:177-182 | selects rejection of the id only when a pending record has it; otherwise nothing changes |
| Admin.AdminScreen.ApproveAt | admin.js:211-231 | the approved record goes to the end of the approved list and its credential to the end of the driver list; it leaves pending; the total is kept; an unreadable driver list throws midway, leaving the marked record in both lists |
| Admin.AdminScreen.RejectAt | admin.js:234-238 | the rejected record goes to the end of the rejected list and leaves pending; statuses still match the lists |
| Admin.AdminScreen.ActOn | admin.js:209-258 | approve or reject the record at the position, then save, recount and clear the selection; an aborted approval saves nothing |
| Admin.AdminScreen.ExecuteAction | admin.js:203-259 | nothing changes without an action, with id 0 or with an id not pending; otherwise the first record with the id moves to the end of the approved or rejected list, the others keep their order, the total is kept, everything is saved and the selection is cleared |
| Admin.AdminScreen.AddSampleRegistration | admin.js:264-281 | one pending sample record at the end of the queue; saved; counters current |
| Admin.SecondConfirmIsIgnored | admin.js:204 | with the selection cleared a second confirm is ignored |
| DriverLogin.LoadApprovedDrivers | mototaxista-login.js:40-77 | a missing key is seeded with the two default drivers, unreadable text is reset to the empty list, a stored list is kept |
| DriverLogin.LoginKey | mototaxista-login.js:95-108 | the lookup key holds only digits and is the digits of the raw input: the `trim` makes no difference |
| DriverLogin.Decide | mototaxista-login.js:92-148 | the decision is `Required` exactly when a field is blank, and a success carries a driver session; the full case split is `DecideCases` |
| DriverLogin.FirstDriver | mototaxista-login.js:108 | the driver `find` returns has the key as phone and no earlier driver has it |
| DriverLogin.Matched | mototaxista-login.js:125-138 | for a found driver: wrong password first, then not approved, else a session with the driver's data |
| DriverLogin.DecideCases | mototaxista-login.js:92-148 | every login outcome in both directions: blank fields; the first driver with the key; if none, a pending CNH equal to the key; then the password, then the status; success writes that driver's session |
| DriverLogin.HandleLogin | mototaxista-login.js:92-148 | the outcome is the decision; only a success writes the driver session, and nothing else writes it |
| DriverLogin.PasswordBeforeStatus | mototaxista-login.js:125-135 | a wrong password is reported whatever the found driver's status |
| DriverLogin.MatchSignsIn | mototaxista-login.js:125-148 | a found, approved driver with the right password is signed in |
| DriverLogin.PendingKeyUnderReview | mototaxista-login.js:110-118 | with no driver holding the key, a pending CNH equal to it gives the review outcome |
| DriverLogin.DecideFound | mototaxista-login.js:108-135 | a login whose key some driver holds is decided by the first such driver alone |
| DriverLogin.EarlierDriverWins | mototaxista-login.js:108 | a driver appended behind an earlier match for the key changes no login |
| DriverLogin.AppendedDriverUnseen | mototaxista-login.js:108 | a driver appended behind the list changes no login whose key it does not hold or an earlier driver holds |
| Passenger.LoadRegisteredUsers | passageiro.js:56-77 | a missing key is seeded with the two default accounts, unreadable text is reset to the empty list, a stored list is kept |
| Passenger.FirstAccount | passageiro.js:143 | the account `find` returns has the phone and no earlier account has it |
| Passenger.LoginDecision | passageiro.js:130-171 | every login outcome in both directions: blank fields, unreadable list, not found, wrong password, inactive, success with that account's session |
| Passenger.HandleLogin | passageiro.js:127-180 | the outcome is the decision; only a success writes the passenger session |
| Passenger.RegisterDecision | passageiro.js:189-217 | every registration outcome in both directions: blank fields, unreadable list, a duplicate digits-only phone, else a new active account with the digits as phone |
| Passenger.HandleRegister | passageiro.js:186-223 | only a new phone appends exactly one account at the end of the list and writes it back; a duplicate or a blank field changes nothing |
| Passenger.RegisterThenLogin | passageiro.js:212-223 | after registering, logging in with any formatting of the same digits and the same password signs the new account in |
| Passenger.LoginSucceedsAt | passageiro.js:143-171 | the first account with the digits, holding the password and active, is signed in |
| Passenger.NewAccountFoundFirst | passageiro.js:220 | an account appended behind a list without its phone is the first match for it |
| DriverDashboard.IdsOf | mototaxista-dashboard.js:25-74 | the ids of a ride list, in order |
| DriverDashboard.MockIdsInOrder | mototaxista-dashboard.js:25-74 | the sample rides carry ids 1 to 4 in that order |
| DriverDashboard.MockIdsDistinct | mototaxista-dashboard.js:25-74 | no two sample rides share an id |
| DriverDashboard.InitialStatusCoversRides | mototaxista-dashboard.js:25-74 | every sample ride, and nothing else, has a status on page load |
| DriverDashboard.AvailableFrom | mototaxista-dashboard.js:130 | the filter holds exactly the listed ids whose status is available and adds no duplicate |
| DriverDashboard.AvailableFromAppend | mototaxista-dashboard.js:130 | filtering a concatenation is the concatenation of the filtered parts, so the filter keeps the list order |
| DriverDashboard.AvailableFromSingleton | mototaxista-dashboard.js:130 | one id is kept exactly when its status is available |
| DriverDashboard.CurrentUser | mototaxista-dashboard.js:90-106 | only a driver session becomes the dashboard's user |
| DriverDashboard.Stats | mototaxista-dashboard.js:394-405 | nothing without a user; earnings are rides times 20; a driver's own non-zero rating is shown, and a zero (or absent) rating shows 4.8 |
| DriverDashboard.Dashboard.constructor | mototaxista-dashboard.js:19-22 | online, no user, nothing listed, every sample ride available |
| DriverDashboard.Dashboard.PageLoaded | mototaxista-dashboard.js:79-84 | the user from the session, then the offers reloaded |
| DriverDashboard.Dashboard.LoadAvailableRides | mototaxista-dashboard.js:129-132 | the offers are the filter of the sample ids by status, which holds exactly the available rides in list order (`AvailableFromAppend`, `MockIdsInOrder`); the invariant holds |
| DriverDashboard.Dashboard.AcceptRide | mototaxista-dashboard.js:260-277 | an offered ride leaves the offers, joins the end of the accepted list and is marked accepted; otherwise nothing changes; the invariant is kept |
| DriverDashboard.Dashboard.RejectRide | mototaxista-dashboard.js:283-295 | the ride leaves the offers only; its status and the accepted list are kept |
| DriverDashboard.Dashboard.StartRide | mototaxista-dashboard.js:301-315 | an accepted ride is marked in progress and stays in its list; otherwise nothing changes |
| DriverDashboard.Dashboard.FinishRide | mototaxista-dashboard.js:321-336 | the ride leaves the accepted list and is not offered again |
| DriverDashboard.Dashboard.CancelRide | mototaxista-dashboard.js:342-359 | an accepted ride leaves the accepted list, goes to the end of the offers and is marked available; otherwise nothing changes |
| DriverDashboard.Dashboard.ToggleStatus | mototaxista-dashboard.js:364-389 | the flag flips; going online reloads the offers, going offline keeps them |
| DriverDashboard.ReloadSkipsTakenRides | mototaxista-dashboard.js:130 | an accepted, started or finished ride is never reloaded |
| DriverDashboard.ReloadOffersRejectedRide | mototaxista-dashboard.js:288 | a rejected ride is offered again after a reload |
| DriverDashboard.FreshPageOffersAll | mototaxista-dashboard.js:83 | on page load every sample ride is offered |
| Workflow.ApprovalCredential | admin.js:218-231 | the credential an approval appends has the CNH as phone, password "123456" and status approved |
| Workflow.DigitCnhIsLoginKey | mototaxista-login.js:108 | an all-digit CNH typed as the phone is its own lookup key |
| Workflow.PendingDriverIsUnderReview | mototaxista-login.js:110-118 | before approval, a login with the CNH reports the review whatever the password |
| Workflow.NewCredentialFoundFirst | admin.js:229-231 | with no driver holding the CNH as phone, the appended credential is the one a login finds |
| Workflow.ApprovedDriverCanLogIn | mototaxista-login.js:105-148 | after approval, the CNH and "123456" sign the driver in with the default name, rating 4.5 and no rides |
| Workflow.ApprovalIgnoresChosenPassword | admin.js:220 | after approval any password other than "123456", including the one chosen at registration, is refused |
| Workflow.NonDigitCnhCredentialUnreachable | admin.js:219 | the credential of a CNH with any non-digit changes no login |
| Workflow.RepeatedCnhApprovalShadowed | admin.js:230 | a credential for a CNH some driver already has as phone changes no login |
| Workflow.DefaultPasswordIsTrimmed | admin.js:220 | "123456" typed as is survives trimming |
| Workflow.RegisteredCnhIsLoginKey | mototaxista.js:85 | the queued CNH of an all-digit form is the typed CNH's lookup key |
| Workflow.RegisterApproveLogIn | mototaxista-login.js:105-148 | end to end: a valid form with an all-digit CNH, once approved, lets the driver sign in with that CNH and "123456" |
| Workflow.NewDriverDashboard | mototaxista-dashboard.js:394-405 | a freshly approved driver's dashboard shows no rides, a 4.5 rating and no earnings |

## Left out

- DOM work: rendering, alerts and notifications, modals, tab switching, form reset and the file-label cosmetics. None of it has state the model needs.
- `formatFileSize` in both files: floating-point display formatting.
- `passageiro-dashboard.js` is not part of this model. Its ride flow is a chain of timers with a random driver choice.
- The 5-second timer in `startRide`: `FinishRide` is an ordinary event that may come at any time.
- Page navigation, redirects, `logout` and `handleForgotPassword`. `loadUserInfo` only displays the user.
- JSON text and local storage internals. A stored value that parses to something other than an array is folded into `Garbled`. An unreadable session record on the dashboard is not modelled; the session is `Option<Session>`.
- String lengths count Dafny characters. JavaScript's `length` counts UTF-16 code units, which differ only for characters outside the Basic Multilingual Plane.
- Aliasing of registration objects: the record in the approved list and the pending entry are one object in the source. The model copies values. They agree until an approval throws. That case `Admin.AdminScreen.ApproveAt` states explicitly: the marked record is left in both lists as two copies. After it the two can differ. The selection is still set, so once the driver list is readable again a second confirmation approves the same pending record again. In the source every entry that is that one object then shows the latest processing date. In the model only the newly appended copy does, and the earlier entry in the approved list keeps the first date.
- The registration photo is its name, type and size; the file's content is not read by the source either.
- Statistics: `toFixed(2)` formatting of the earnings is left out. Earnings are whole reais.
- DriverDashboard.Stats: an absent rating and a rating of 0 are both `0` in the model, so the `|| 4.8` fallback is stated for the rating 0, which stands for both.
- Dafny strings are not normalised, and no case folding happens in the source either.
