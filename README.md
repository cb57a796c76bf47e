# Lost-and-found app: state and decision logic

A model in Dafny of the small pieces of state and decision logic in a React Native lost-and-found
client for a university campus:

- **Identity sync guard** (`IdentitySync`, `auth_sync.dfy`). The component that asks the backend's
  `/api/me` to materialise the signed-in user. It has two refs, `syncing` and `lastSyncedUserId`.
  The class `AuthSync` has those two fields, and `Trigger` and `Complete` methods split the async
  body at its awaits. Pure step functions `TriggerStep`, `CompleteStep` and `Run` describe sequences
  of triggers and completions.
- **Report forms** (`ReportForm`, `ReportMissing`, `ReportFound`). The shared list logic comes first:
  tag toggling, removing an image with `splice` semantics, the five-image cap and required-field
  validation. On top of it sit:
  - the missing-item screen, with its `dd/mm/yyyy` formatter and parser and the outcome of its
    submit handler;
  - the found-item screen, whose submit only validates and runs a timer.

  Each screen is a class whose methods update its fields.
- **Onboarding** (`Onboarding`). The three-slide screen, a class holding a bounded slide index.
- **Email domain gate** (`DomainGuard`). A pure verdict: no action, accept, or reject and sign out.
- **Image upload** (`UploadImage`). It builds the file extension, content type, storage path and
  public URL.
- **Helpers** (`Strings`, `Wrappers`). The JavaScript string operations the above rely on:
  - `split`, which never returns an empty array;
  - `pop` of the last element;
  - ASCII `toLowerCase`;
  - `String(n)` and `padStart(2, '0')`;
  - `Number` on digit strings.

  `Wrappers` defines `Option`.

Clocks, randomness, the auth provider's token, `fetch` responses and storage outcomes are
parameters of the functions and methods that depend on them.

In `AuthSync` the code has no `try`/`finally`. A rejected `getToken()` or `fetch()` therefore leaves
`syncing` set, so the flag is not released on every path (`CompleteStep`, `ThrowBlocksEveryLaterSync`).

## Model

| member | source | states |
|---|---|---|
| IdentitySync.TriggerStep | components/AuthSync.tsx:20-24 | the effect never touches `lastSyncedUserId`; when the guard passes it sets `syncing` and captures the user id, otherwise it changes nothing |
| IdentitySync.CompleteStep | components/AuthSync.tsx:26-51 | after a sync resumes nothing is pending, and `lastSyncedUserId` changes only on an ok response, to the id captured at trigger time |
| IdentitySync.StartCondition | components/AuthSync.tsx:20-22 | a sync starts iff signed in, loaded, user id non-empty, not syncing and the id differs from `lastSyncedUserId`; otherwise the trigger is a no-op |
| IdentitySync.StepValid | components/AuthSync.tsx:20-52 | every trigger or completion keeps "a pending sync holds the flag and targets an unsynced user" |
| IdentitySync.SecondTriggerIsNoOp | components/AuthSync.tsx:21-26 | while a started sync is pending, any further trigger starts nothing and changes nothing |
| IdentitySync.MissingTokenReleases | components/AuthSync.tsx:26-30 | a null token clears `syncing` and leaves `lastSyncedUserId` unchanged |
| IdentitySync.OkRecordsCapturedUser | components/AuthSync.tsx:36-37 | trigger then ok response records exactly the triggering user id and clears the flag |
| IdentitySync.NonOkRetries | components/AuthSync.tsx:47-51 | a non-ok response restores the pre-trigger state, so the next effect run with the same inputs starts a sync again |
| IdentitySync.RunValid | components/AuthSync.tsx:19-55 | any sequence of triggers and completions keeps the state consistent |
| IdentitySync.SyncedUserNeverResyncs | components/AuthSync.tsx:16-37 | once user A is synced, no sequence of triggers for A (or for no user, as after sign-out) starts a request, and A stays recorded |
| IdentitySync.StuckFlagBlocksForever | components/AuthSync.tsx:23-52 | with `syncing` left true and nothing pending, no later event starts a sync or changes the state |
| IdentitySync.ThrowBlocksEveryLaterSync | components/AuthSync.tsx:23-52 | a rejected `getToken()` or `fetch()` means no later trigger ever starts a sync |
| IdentitySync.SyncOncePerIdentity | components/AuthSync.tsx:19-55 | two rapid triggers for A start one request; after its ok response a trigger for A starts none, and one for B starts exactly one |
| IdentitySync.AuthSync.constructor | components/AuthSync.tsx:16-17 | both refs start cleared, with nothing pending |
| IdentitySync.AuthSync.Trigger | components/AuthSync.tsx:20-24 | reports whether a sync started and moves the fields as `TriggerStep` does |
| IdentitySync.AuthSync.Complete | components/AuthSync.tsx:26-51 | moves the fields as `CompleteStep` does for the given outcome of the awaits |
| ReportForm.Without | components/ReportMissingItem.tsx:144 | the filtered list has no copy of the tag and holds every other tag as often as before |
| ReportForm.WithoutConcat | components/ReportMissingItem.tsx:144 | filtering works piece by piece, so the remaining tags keep their order |
| ReportForm.WithoutAbsent | components/ReportMissingItem.tsx:144 | filtering out an absent tag changes nothing |
| ReportForm.ToggleTag | components/ReportMissingItem.tsx:142-148 | the tag is in the result iff it was not in the list, and every other tag occurs as often as before |
| ReportForm.ToggleTagSpec | components/ReportMissingItem.tsx:142-148 | toggling flips membership; a present tag loses every occurrence, an absent one is appended at the end, and the other tags are unchanged in order |
| ReportForm.ToggleAbsentTwice | components/ReportMissingItem.tsx:142-148 | toggling an absent tag twice restores the original list |
| ReportForm.TogglePresentTwice | components/ReportFoundItem.tsx:79-85 | toggling a present tag twice leaves one copy at the end, after the other tags |
| ReportForm.RemoveAt | components/ReportMissingItem.tsx:129-133 | `splice(index, 1)` on a copy removes one image iff the list is non-empty and the index is below its length (negative indexes included), and never adds any |
| ReportForm.RemoveAtValid | components/ReportMissingItem.tsx:129-133 | for a rendered index, exactly that image is removed, the others keep their order, and the length drops by one |
| ReportForm.RemoveAtOutOfRange | components/ReportFoundItem.tsx:73-77 | an index at or past the end removes nothing; a negative index counts from the end |
| ReportForm.AfterPick | components/ReportFoundItem.tsx:46-50 | a pick only appends, at most one image, and keeps the list within the cap |
| ReportForm.AfterPickSpec | components/ReportMissingItem.tsx:108-127 | the list changes iff permission was granted, the pick has an asset and fewer than 5 images are held; then exactly the first asset is appended, and the list never passes 5 |
| ReportForm.RemoveAtKeepsCap | components/ReportMissingItem.tsx:122-133 | removing an image never takes the list past the cap |
| ReportMissing.FormatDate | components/ReportMissingItem.tsx:135-140 | the text is two digits, `/`, two digits, `/`, then a year with no further `/` |
| ReportMissing.ParseDDMMYYYY | components/ReportMissingItem.tsx:25-37 | a parse succeeds only for text that contains a `/`; `ParseSpec` characterises success in both directions |
| ReportMissing.ParseSpec | components/ReportMissingItem.tsx:25-36 | a parse succeeds iff the first three parts are non-empty and each reads as a number, and then gives the year, the month minus one and the day |
| ReportMissing.ParseRejectsNonNumeric | components/ReportMissingItem.tsx:29-34 | a non-numeric part among the first three makes the parse fail |
| ReportMissing.ParseIgnoresExtraParts | components/ReportMissingItem.tsx:25-27 | anything after the third `/`-separated part is ignored |
| ReportMissing.SplitFormatted | components/ReportMissingItem.tsx:135-140 | a formatted date splits into the padded day, the padded 1-based month and the year |
| ReportMissing.ParseFormatRoundTrip | components/ReportMissingItem.tsx:25-37 | parsing what `formatDate` wrote gives back the picked year, 0-based month and day |
| ReportMissing.UploadAll | components/ReportMissingItem.tsx:160-163 | when every upload succeeds there is one URL per image |
| ReportMissing.UploadAllSpec | components/ReportMissingItem.tsx:160-163 | `Promise.all` succeeds iff each upload does, and URL i is image i's public URL |
| ReportMissing.SubmitOutcome | components/ReportMissingItem.tsx:152-210 | a POST happens only with all four fields filled and a token that resolved; it is a `lost` report with one URL per image; a rejected `getToken()` ends at the error exit with no POST |
| ReportMissing.SubmitPostsOnlyWhenValid | components/ReportMissingItem.tsx:152-200 | the POST is issued iff the four fields are filled, the uploads succeed, the date parses and a token is present; the missing-fields exit happens iff a field is empty |
| ReportMissing.PayloadFromForm | components/ReportMissingItem.tsx:174-183 | the posted payload is of type `lost`, with title, description, location, campus, tags, parsed date and uploaded URLs from the form; success iff the response is ok |
| ReportMissing.FormattedDateNeverInvalid | components/ReportMissingItem.tsx:165-170 | a `dateLost` written by `formatDate` never takes the invalid-date exit |
| ReportMissing.FormattedDateParses | components/ReportMissingItem.tsx:219-224 | what `onChangeDate` and `confirmDate` write always parses |
| ReportMissing.MissingReport.constructor | components/ReportMissingItem.tsx:41-51 | the screen mounts with empty fields, building `CS1`, no images or tags, and the picker closed on today's date |
| ReportMissing.MissingReport.SetText | components/ReportMissingItem.tsx:271-331 | a text input writes its one field and nothing else |
| ReportMissing.MissingReport.ChoosePhoto | components/ReportMissingItem.tsx:108-127 | alerts iff permission is denied; the images become `AfterPick` of the old ones, and no other field may change |
| ReportMissing.MissingReport.RemoveImage | components/ReportMissingItem.tsx:129-133 | the images become `RemoveAt` of the old ones, under the cap; no other field may change |
| ReportMissing.MissingReport.ToggleTag | components/ReportMissingItem.tsx:142-148 | the selected tags become the toggled list; no other field may change |
| ReportMissing.MissingReport.ChangeDate | components/ReportMissingItem.tsx:213-221 | keeps the picked date (or the old one); on Android also closes the picker and writes `formatDate` of it into `dateLost`; only the date, the picker flag and `dateLost` may change |
| ReportMissing.MissingReport.ConfirmDate | components/ReportMissingItem.tsx:223-226 | writes `formatDate` of the picker's date as it stood into `dateLost` and closes the picker; nothing else may change |
| ReportMissing.MissingReport.OpenDatePicker | components/ReportMissingItem.tsx:347 | opens the picker without touching the form |
| ReportMissing.MissingReport.CancelDate | components/ReportMissingItem.tsx:228-230 | closes the picker without touching the form |
| ReportMissing.MissingReport.Submit | components/ReportMissingItem.tsx:152-210 | ends where `SubmitOutcome` says and never at the invalid-date exit, since `dateLost` only ever holds a formatted date; only `isLoading` may change: untouched on the validation exit and false after every other exit, a rejected token included |
| ReportFound.AcceptsSpec | components/ReportFoundItem.tsx:87-91 | a submit is accepted iff no text field is empty; the images are never checked, although the photo is labelled required |
| ReportFound.Accepts | components/ReportFoundItem.tsx:87-91 | the validation reads the four text fields and nothing else |
| ReportFound.DateIsFreeText | components/ReportFoundItem.tsx:208-214 | any non-empty `dateFound` text is accepted; it is never parsed |
| ReportFound.FoundReport.constructor | components/ReportFoundItem.tsx:20-28 | the screen mounts with empty fields, building `CS1` and no spinner |
| ReportFound.FoundReport.SetText | components/ReportFoundItem.tsx:160-214 | a text input (including the free-text date) writes its one field and nothing else |
| ReportFound.FoundReport.AddPhoto | components/ReportFoundItem.tsx:32-71 | gallery and camera both alert iff permission is denied and make the images `AfterPick` of the old ones, so the cap holds |
| ReportFound.FoundReport.RemoveImage | components/ReportFoundItem.tsx:73-77 | the images become `RemoveAt` of the old ones; nothing else changes |
| ReportFound.FoundReport.ToggleTag | components/ReportFoundItem.tsx:79-85 | the selected tags become the toggled list; nothing else changes |
| ReportFound.FoundReport.Submit | components/ReportFoundItem.tsx:87-93 | accepted iff every text field is filled; then the spinner starts and a timer is pending, otherwise nothing changes; no request is made |
| ReportFound.FoundReport.TimerFired | components/ReportFoundItem.tsx:94-99 | the timer stops the spinner and leaves the form unchanged |
| Onboarding.AfterPressesSpec | components/OnboardingScreen.tsx:30-36 | n presses of "next" from the first slide reach slide min(n, 2), and every press past the last slide navigates home |
| Onboarding.Next | components/OnboardingScreen.tsx:30-36 | one press keeps the index in range; it navigates home iff on the last slide, and then the index stays; otherwise the index grows by one |
| Onboarding.ExactlyOneIndicator | components/OnboardingScreen.tsx:66-74 | exactly one indicator is active, the one at the current index |
| Onboarding.OnboardingScreen.constructor | components/OnboardingScreen.tsx:27 | the screen opens at index 0, showing "Tìm đồ thất lạc dễ dàng" |
| Onboarding.OnboardingScreen.HandleNext | components/OnboardingScreen.tsx:30-36 | before the last slide the index grows by one and nothing navigates; on the last slide the index stays and the route is `/(tabs)/home`; the index stays in range |
| Onboarding.OnboardingScreen.HandleSkip | components/OnboardingScreen.tsx:38-40 | skipping always navigates to `/(tabs)/home` |
| Onboarding.OnboardingScreen.VisibleSlides | components/OnboardingScreen.tsx:55 | exactly one slide is rendered, the current one |
| Onboarding.OnboardingScreen.SkipOffered | components/OnboardingScreen.tsx:78-91 | the skip button is shown iff the current slide is not the last |
| Onboarding.NextShowsSecondTitle | components/__tests__/OnboardingScreen.test.tsx:27-34 | one press of "next" from the start shows "Kết nối cộng đồng" without navigating |
| DomainGuard.GuardSpec | hooks/useDomainGuard.ts:11-25 | no action iff not loaded, no user, or no or empty primary email; rejection (alert and sign-out) iff such an email's domain is not allowed |
| DomainGuard.Guard | hooks/useDomainGuard.ts:11-25 | nothing happens until loaded with a user; acceptance implies a primary email whose domain is `hcmut.edu.vn` |
| DomainGuard.EmailDomain | hooks/useDomainGuard.ts:17 | the domain is defined iff the email has an `@`, and contains no `@` itself |
| DomainGuard.DomainIsSecondSegment | hooks/useDomainGuard.ts:17 | the checked domain is the text between the first `@` and the next `@` or the end |
| DomainGuard.AcceptExactly | hooks/useDomainGuard.ts:5-18 | for an address with `@`, acceptance is exact, case-sensitive equality of that segment with `hcmut.edu.vn`; so a different case or a subdomain is rejected, and `a@hcmut.edu.vn@x.com` is accepted |
| DomainGuard.NoAtRejected | hooks/useDomainGuard.ts:17-24 | an email without `@` has no domain and is rejected |
| UploadImage.ExtensionAfterLastDot | services/uploadImage.ts:23-25 | with a `.`, the extension is the lower-cased text after the last one |
| UploadImage.ExtensionWithoutDot | services/uploadImage.ts:23-25 | without a `.`, the extension is the whole URI lower-cased |
| UploadImage.GetFileExtension | services/uploadImage.ts:23-25 | the extension contains no `.` and is already lower case |
| UploadImage.Extension | services/uploadImage.ts:8 | the chosen extension is never empty, has no `.` and is lower case |
| UploadImage.ExtensionSpec | services/uploadImage.ts:8 | the chosen extension has no `.`, is lower case and non-empty, and is `jpg` iff the raw extension is empty or `jpg` |
| UploadImage.ContentTypeSpec | services/uploadImage.ts:14 | the content type is `image/jpeg` iff the extension is `jpg` or `jpeg`, and `image/` + extension otherwise |
| UploadImage.ContentType | services/uploadImage.ts:14 | the content type always starts with `image/`, and is only `image/` for an empty extension |
| UploadImage.ExtensionMaySpanDirectories | services/uploadImage.ts:23-25 | when the only `.` is in a directory name, the "extension" runs across the `/` after it |
| UploadImage.StoragePathSpec | services/uploadImage.ts:9 | the path starts with `items/`, ends with `.` + extension, and reading the extension back off the path gives the same extension |
| UploadImage.StoragePath | services/uploadImage.ts:9 | the path starts with `items/` and ends with `.` + extension |
| UploadImage.UploadSpec | services/uploadImage.ts:4-21 | a URL is returned iff the read and the upload both succeed, otherwise the call throws; the URL lies under base + `/storage/v1/object/public/item-images/items/`, and reading the extension back off it gives the extension the file was stored with |
| UploadImage.Upload | services/uploadImage.ts:4-21 | a returned URL always starts with base + `/storage/v1/object/public/item-images/` |
| UploadImage.UploadExamples | services/uploadImage.ts:8-14 | `.JPG` becomes `jpg` with type `image/jpeg`, and a trailing `.` falls back to `jpg` |
| Strings.SplitCount | services/uploadImage.ts:24 | `split` yields one more part than there are separators |
| Strings.Split | services/uploadImage.ts:24 | `split` returns at least one part, and no part contains the separator |
| Strings.JoinSplit | services/uploadImage.ts:24 | joining the parts of a split with the separator gives back the string |
| Strings.SplitJoin | services/uploadImage.ts:24 | splitting a join of separator-free parts gives back the parts |
| Strings.SplitLast | services/uploadImage.ts:24 | the last part of a split is the text after the last separator |
| Strings.LowerIdempotent | services/uploadImage.ts:24 | lower-casing twice is lower-casing once |
| Strings.Lower | services/uploadImage.ts:24 | lower-casing keeps the length and maps each character to its ASCII lower case |
| Strings.NumberOfIntToString | components/ReportMissingItem.tsx:138 | `Number` of `String(year)` gives the year back |
| Strings.NumberOfPad2 | components/ReportMissingItem.tsx:136-137 | `Number` of a two-digit padded string gives the number back |
| Strings.NatToString | services/uploadImage.ts:9 | `String(n)` of a non-negative number is non-empty, all digits, and a single digit iff n < 10 |
| Strings.IntToString | components/ReportMissingItem.tsx:138-139 | `${yyyy}` of any integer is non-empty, starts with `-` iff the number is negative, and is otherwise digits |
| ReportForm.RequiredFilled | components/ReportMissingItem.tsx:153 | the submit's required-field test passes iff item name, description, location and date are all non-empty |
| Strings.Pad2 | components/ReportMissingItem.tsx:136-137 | `padStart(2, '0')` of a number gives at least two digits, exactly two below 100 |
| Strings.NumberValue | components/ReportMissingItem.tsx:29-31 | a number is read only from a digit or sign followed by digits; a negative one starts with `-`; a digit string always reads as a non-negative number |

## Left out

- Network and foreign calls. The model does not perform:
  - the `/api/me` and `/api/items` requests;
  - the Supabase storage call;
  - the file read;
  - the auth provider's `getToken`.

  Their outcomes are parameters: a token that is missing, present or rejected; a response
  that is ok, non-ok or rejected; an upload that succeeds or throws.
- Sentry user tagging, console logging and the text of alert dialogs. At most, the model records
  that an alert was raised.
- React effect scheduling and dependency arrays. Effects are explicit `Trigger` calls, and the
  verdict of the domain gate is a value rather than a call to `signOut`. The component re-runs
  its effect only when `isSignedIn`, `isLoaded` or `user?.id` changes, so the "retry" of
  `NonOkRetries` means that the next such re-run passes the guard, not that a retry happens by
  itself. Likewise a switch to user B while A's sync is pending returns early, and nothing
  re-runs the effect for B when A's sync ends.
- JavaScript `Date`. The model leaves out:
  - overflow normalisation (`31/02` rolls into March);
  - the 0–99 year rule of the `Date` constructor;
  - time zones and `toISOString`.

  `parseDDMMYYYY` returns the (year, month - 1, day) arguments of `new Date`, and the payload
  carries those arguments in place of the ISO string.
- ReportMissing.ParseDDMMYYYY: `Number` is modelled only for digit strings with an optional sign.
  Other text that JavaScript coerces to a number is treated as rejected. Examples are surrounding
  spaces, decimals, `0x` prefixes, exponents, and an empty string, which reads as 0.
- ReportMissing.ParseDDMMYYYY: the `isNaN(date.getTime())` test also rejects numeric parts whose
  `Date` falls outside JavaScript's time range of ±8.64e15 ms (years beyond about 275760). The model
  does not check that range, so `01/01/300000` parses here where the component returns null. Text
  written by `formatDate` from a picker date never comes near that range.
- Strings.Lower: `toLowerCase` is modelled for ASCII letters only.
- The intermediate values of `isLoading` during the awaits of the missing-item submit are left
  out. Only its value on each exit is stated.
- `removeImage` copies the array and splices the copy. It is modelled as a value computed from the
  old list and assigned to the field, so there is no aliasing to track.
- The random suffix (`Math.random().toString(16).slice(2)`) and `Date.now()` are parameters.
- The 1500 ms timer of the found-item submit is a separate `TimerFired` step, and the
  navigation back after its alert is left out.
- Router navigation is returned as the route string.
- Layout and styles.
- The tag dropdown's visibility flag and the fixed list of available tags are left out, because
  nothing in the logic reads them.
- Chat polling, contexts, `components/OnBoarding.tsx`, the login screen and routing files are not
  part of this model.
