# banRAP account store and dashboard handlers, in Dafny

This project models the logic of the banRAP web client:

- **The mock account store** (`fakeDatabase.js`). It holds a list of users plus two keyed tables. The first holds one-time codes for password reset; each code is stored as a digest, with a creation time and a failure count. The second holds reset tokens. The store offers login, sign-up, code issue and verification, password reset and three read accessors.
- **The sign-up form.** This covers its validator and its change handler.
- **The administrator dashboard.** This covers submission review, adding, suspending and reinstating analysts, the email search and the navigation-form guard.
- **The analyst dashboard.** This covers the role gate, complaint resolution, the navigation-form guard and the statistics card.
- **The road-labeling screen.** This covers the road-information step, the segment cursor and the label object.

Every operation is a pure function. A store operation that can change the store (sign-up, code issue, code verification, password reset) returns an `Outcome`: the reply (`Ok(value)` or `Fail(error)`) together with the next store. Login returns a `Result`, and the read accessors return plain values. A React handler returns the state its `setX` calls would set. When a handler stops at `alert(...)` instead, it returns `Alerted(message)`, and the state stays as it was.

## How the JavaScript semantics are modelled

- **Truthiness.** `!s` on a string means `s == ""`. `!s.trim()` means `Blank(s)`, and `Blank` uses the full JavaScript white-space set, line terminators included. The model keeps track of which checks trim and which do not.
- **String length.** `.length` and `charCodeAt` count UTF-16 code units. `CodeUnits` splits a character outside the Basic Multilingual Plane into its surrogate pair.
- **The OTP digest.** `hashOTP` computes `(h << 5) - h + c` and then `h & h`. Each step is modelled as `ToInt32(31·h + c)`, where `ToInt32` is the wrap-around into 32 bits. The digest is `Math.abs(h)` rendered in base 16.
- **The password rule.** The regular expression `(?=.*[a-z])(?=.*[A-Z])(?=.*\d)` is modelled with regular-expression semantics: some start position must see each of the three character classes ahead of it without crossing a line terminator, because `.` does not match one. On text without line breaks this is the same as containing all three classes (`Validation.SingleLineClasses`). Across line breaks it is not (`Validation.ClassesSplitAcrossLines`). The rule is usually read as "contains a lower-case letter, an upper-case letter and a digit". The model follows the expression as written.
- **Keyed tables are plain objects.** `otpStorage[email]` and `passwordResetTokens[email]` are property reads on objects created by `{}`, so a key the table does not hold still finds the property `Object.prototype` gives every object (`toString`, `constructor`, `__proto__`, …). `AccountStore.InheritedNames` lists those names and `AccountStore.PropertyFound` is the truthiness of the read. A code check under such a name reads `undefined` fields, so the age is `NaN`, no limit applies, and the digest comparison fails; the model replies `WrongOtpUncounted` and keeps the store. A reset under such a name passes the token test and then finds no user.
- **`parseInt`.** Leading white space is skipped, one sign is read, `0x`/`0X` switches to base 16, and the longest run of digits of the base is read; no digit is `NaN`, modelled as `None`.
- **Clock, randomness and dates.** The clock is a millisecond parameter. `Math.random` is replaced by parameters: the six-digit code, constrained to 100000..999999, and the reset token. The date strings `new Date()` would produce are parameters too.

## Model

| member | source | states |
|---|---|---|
| JsText.Trim | test/src/component/SignUp.jsx:25-31 | `trim()` returns the piece of the text between an all-space prefix and an all-space suffix. It is empty exactly when the text is all JavaScript white space, and otherwise it starts and ends with a non-space character |
| JsText.TrimBothEnds | test/src/component/SignUp.jsx:25-31 | the part `trimStart` drops and the part `trimEnd` then drops are white space on either side of the result |
| JsText.Blank | test/src/component/SignUp.jsx:25-31 | `!s.trim()` holds exactly when every character is white space, the empty text included |
| JsText.Includes | test/src/component/AdminDashboard.jsx:521 | `includes` holds exactly when the query occurs at some position of the text |
| JsText.ToLower | test/src/component/AdminDashboard.jsx:521 | `toLowerCase()` on ASCII: same length, and each position is the lower-cased character |
| JsText.ToLowerIdempotent | test/src/component/AdminDashboard.jsx:521 | lower-casing twice is lower-casing once |
| JsText.CodeUnitsOfBmp | test/src/utils/fakeDatabase.js:56-57 | on text with no character outside the Basic Multilingual Plane, the code units are the character codes, one per character |
| JsText.ParseDigits | test/src/component/RoadLabeling.jsx:219 | `parseInt` gives `NaN` exactly when no digit of the base starts the body. Otherwise the value is that of the longest run of digits of the base |
| JsText.Signed | test/src/component/RoadLabeling.jsx:219 | a sign in front gives `NaN` exactly when the digits do, and otherwise negates the value for `-` |
| JsText.ParseInt | test/src/component/RoadLabeling.jsx:219 | `parseInt` on the empty text is `NaN`. A leading white-space character is skipped. A `-` or `+` is read once before the digits, and base 16 follows `0x` |
| JsText.ParseIntStopsAtNonDigit | test/src/component/RoadLabeling.jsx:219 | `parseInt("12px")` is 12 |
| JsText.ParseIntSkipsSpace | test/src/component/RoadLabeling.jsx:219 | `parseInt(" 12px")` is 12 |
| JsText.ParseIntNegativeHex | test/src/component/RoadLabeling.jsx:219 | `parseInt("-0x1A")` is -26 |
| JsText.ParseIntLettersAreNaN | test/src/component/RoadLabeling.jsx:219 | `parseInt("px")` is `NaN` |
| JsText.ParseIntBarePrefixIsNaN | test/src/component/RoadLabeling.jsx:219 | `parseInt("0x")` is `NaN` |
| JsText.ParseIntBareSignIsNaN | test/src/component/RoadLabeling.jsx:219 | `parseInt("-")` is `NaN` |
| JsText.ParseDecimalDigits | test/src/component/RoadLabeling.jsx:219 | a non-empty string of decimal digits parses to the number it denotes |
| Radix.Render | test/src/utils/fakeDatabase.js:61 | `toString(16)` and `toString(10)` give at least one character, only digits of the base (lower-case `a`–`f` in base 16), and no leading zero |
| Radix.RenderRoundTrip | test/src/utils/fakeDatabase.js:61 | reading the rendered digits back gives the number |
| Radix.RenderInjective | test/src/utils/fakeDatabase.js:61 | different numbers render to different strings |
| Radix.DecimalLength | test/src/utils/fakeDatabase.js:216 | a number between 10^(k-1) and 10^k renders with exactly k decimal digits |
| Radix.SixDigitCode | test/src/utils/fakeDatabase.js:216 | every code in 100000..999999 renders as exactly six decimal digits |
| Radix.ParseRendered | test/src/component/RoadLabeling.jsx:219 | `parseInt(String(n)) === n` for every natural number n |
| Validation.ValidEmail | test/src/utils/fakeDatabase.js:139-140 | an email that matches the pattern has at least five characters, no white space, and exactly one `@` |
| Validation.EmailSplitShape | test/src/utils/fakeDatabase.js:139-140 | the parts around the `@` of a matching email hold no white space and no other `@` |
| Validation.HasAllClasses | test/src/utils/fakeDatabase.js:157 | text that passes the lookahead test contains a lower-case letter, an upper-case letter and a digit |
| Validation.SingleLineClasses | test/src/utils/fakeDatabase.js:157 | on text without line terminators, the lookahead test passes exactly when the text has a lower-case letter, an upper-case letter and a digit |
| Validation.ClassesSplitAcrossLines | test/src/utils/fakeDatabase.js:157 | `"aA\n1"` has all three classes, yet the lookahead test fails, because no start position sees all three on one line |
| Validation.MissingClassFails | test/src/utils/fakeDatabase.js:157 | text lacking one class fails the test from every start position |
| Validation.ShortPasswordExample | test/src/utils/fakeDatabase.js:149-155 | `short1A` has 7 code units and is too short |
| Validation.LowercasePasswordExample | test/src/component/SignUp.jsx:41-44 | `alllowercase1` is long enough but fails the class test |
| Validation.GoodPasswordExample | test/src/utils/fakeDatabase.js:149-163 | `GoodPass1` passes the password rule |
| OtpHash.ToInt32 | test/src/utils/fakeDatabase.js:59 | the result lies in the 32-bit signed range and is congruent to the input modulo 2^32 |
| OtpHash.ToInt32Congruent | test/src/utils/fakeDatabase.js:59 | inputs congruent modulo 2^32 truncate to the same value |
| OtpHash.Fold | test/src/utils/fakeDatabase.js:55-60 | the running hash never leaves the 32-bit signed range |
| OtpHash.StepIsTimes31 | test/src/utils/fakeDatabase.js:58-59 | one shift-subtract-add-and step equals `ToInt32(31·h + c)` |
| OtpHash.FoldIsTimes31 | test/src/utils/fakeDatabase.js:55-60 | the loop equals the reference reading that wraps `31·h + c` into 32 bits after every code unit |
| OtpHash.TruncatedOnce | test/src/utils/fakeDatabase.js:55-60 | wrapping after every step gives the same value as computing the base-31 polynomial exactly and wrapping once at the end |
| OtpHash.ScaledMultiple | test/src/utils/fakeDatabase.js:58 | a difference that is a multiple of 2^32 stays one after the step's multiplication by 31 |
| OtpHash.HashOtp | test/src/utils/fakeDatabase.js:54-62 | the digest is non-empty lower-case hexadecimal with no leading zero, and its value is the absolute value of the truncated polynomial |
| OtpHash.DigestCollision | test/src/utils/fakeDatabase.js:54-62 | the distinct strings `Aa` and `BB` have the same digest |
| OtpHash.ExactBounded | test/src/utils/fakeDatabase.js:55-60 | the untruncated polynomial of decimal digits is bounded by the bound for its length |
| OtpHash.BoundOfSix | test/src/utils/fakeDatabase.js:55-60 | for up to six digits that bound stays below 2^31 |
| OtpHash.DigitsDoNotWrap | test/src/utils/fakeDatabase.js:55-60 | for at most six decimal digits, truncation to 32 bits changes nothing |
| OtpHash.ExactInjective | test/src/utils/fakeDatabase.js:55-60 | equal-length digit strings with the same polynomial are equal |
| OtpHash.NumeralDigestsDistinct | test/src/utils/fakeDatabase.js:54-62 | two six-digit codes have the same digest exactly when they are the same code |
| AccountStore.FindUser | test/src/utils/fakeDatabase.js:81 | `users.find` by email finds something exactly when the email is registered, and then it finds the first such user |
| AccountStore.FirstWithUnique | test/src/utils/fakeDatabase.js:81 | the first user with an email is unique |
| AccountStore.Login | test/src/utils/fakeDatabase.js:70-108 | Login checks in order: an empty email or password, then an unknown email, then a password that differs from the first matching user's. On success it returns that user without the password. Its only errors are those three |
| AccountStore.SignUp | test/src/utils/fakeDatabase.js:115-187 | Sign-up checks in a fixed order: missing field, email taken, email format, length, character classes. Each error holds exactly when the checks before it pass. A refusal leaves the store unchanged. Success appends one user whose id is `users.length + 1` and returns it without the password |
| AccountStore.SendOtp | test/src/utils/fakeDatabase.js:194-235 | Sending fails on an empty email or an unknown email, and then the store is unchanged. Otherwise it returns the code as six decimal digits and stores the code's digest with the current time and zero attempts. Nothing else changes |
| AccountStore.VerifyOtp | test/src/utils/fakeDatabase.js:243-307 | Verification runs in order: missing input, no code (no own entry and no inherited property), an inherited property refused without counting, expiry after more than ten minutes (deleting the entry), three failures reached (deleting the entry), then a digest mismatch (one more failure). On success it stores the reset token and deletes the code. Users never change |
| AccountStore.ResetPassword | test/src/utils/fakeDatabase.js:315-369 | Reset checks in order: missing input, no token (neither an own entry nor an inherited property), unknown user, length, character classes. A refusal leaves the store unchanged. Success changes only the first matching user's password and consumes the token |
| AccountStore.StripAll | test/src/utils/fakeDatabase.js:376 | every user is listed, in order, without the password |
| AccountStore.AllUsers | test/src/utils/fakeDatabase.js:375-377 | `getAllUsers` lists one record per user, in order, each the user's full record without the password |
| AccountStore.UserByEmail | test/src/utils/fakeDatabase.js:384-390 | `getUserByEmail` gives `null` exactly when the email is unregistered. Otherwise it gives the first matching user without the password |
| AccountStore.AnyWithEmail | test/src/utils/fakeDatabase.js:398 | `users.some` by email holds exactly when the email is registered |
| AccountStore.EmailExists | test/src/utils/fakeDatabase.js:397-399 | `emailExists` agrees with `getUserByEmail` finding a user |
| AccountFlows.SignUpThenLogin | test/src/utils/fakeDatabase.js:70-187 | after a successful sign-up, the same credentials log in and return the same user. The email then exists, and signing up again is refused as taken without changing the store |
| AccountFlows.OtpRoundTrip | test/src/utils/fakeDatabase.js:194-307 | the issued code, entered within ten minutes, verifies. The token is stored and the code is deleted, so entering it again finds no code, or, under an inherited name, is refused as a wrong code |
| AccountFlows.WrongCodeCostsAnAttempt | test/src/utils/fakeDatabase.js:283-291 | any other six-digit code is refused with two attempts remaining and one failure recorded. The tokens are untouched |
| AccountFlows.WrongEntry | test/src/utils/fakeDatabase.js:283-291 | a wrong entry on a live code records exactly one more failure and changes nothing else |
| AccountFlows.ThreeStrikes | test/src/utils/fakeDatabase.js:274-291 | three wrong entries leave 2, 1 and 0 attempts. A fourth entry is refused as too many attempts, even with the right code, and the entry is deleted |
| AccountFlows.ResetThenLogin | test/src/utils/fakeDatabase.js:315-369 | after a reset, the new password logs in and the token is gone, so a second reset is refused unless the email is an inherited name |
| AccountFlows.SeedValid | test/src/utils/fakeDatabase.js:5-45 | the seed store satisfies the store invariant |
| AccountFlows.RegisteredKept | test/src/utils/fakeDatabase.js:115-399 | no operation shortens the user list or changes the email at any position, so a registered email stays registered |
| AccountFlows.ApplyKeepsValid | test/src/utils/fakeDatabase.js:194-369 | every operation keeps the invariant: each pending code has at most three failures, and codes and tokens belong to registered emails |
| AccountFlows.ResetNeverMissesUser | test/src/utils/fakeDatabase.js:325-342 | under the invariant, the "User not found" branch of reset is reached only for a name every object inherits |
| AccountFlows.InheritedNameReachesUserNotFound | test/src/utils/fakeDatabase.js:325-342 | from the valid seed store, a reset for `toString` passes the token test and stops at "User not found" |
| AccountFlows.InheritedNameCodeRefused | test/src/utils/fakeDatabase.js:253-291 | from the seed store, a code check for `toString` is refused as a wrong code and the store is unchanged |
| AccountFlows.SeedQuirks | test/src/utils/fakeDatabase.js:5-45 | Two seed users share id 1. The seeded analyst's password `anal321` fails the strength rule, yet it logs in |
| SignUpForm.EmailError | test/src/component/SignUp.jsx:33-37 | there is an email message exactly when the pattern fails. "Required" takes priority over "invalid" |
| SignUpForm.PasswordError | test/src/component/SignUp.jsx:39-45 | there is a password message exactly when the rule fails. The message is "required", "too short" or "missing classes", in that priority |
| SignUpForm.NoKeysPresent | test/src/component/SignUp.jsx:60 | an empty error object is one with no key present |
| SignUpForm.ValidateForm | test/src/component/SignUp.jsx:22-61 | The form passes exactly when no key is present. Each key is present exactly when its own rule fails: names after trimming, email pattern, password rule, confirmation equality, role non-empty, terms ticked. `general` is never set |
| SignUpForm.HandleChange | test/src/component/SignUp.jsx:63-76 | The changed field takes the new value and every other field is unchanged. The field's error key keeps its presence, and if present its message becomes empty. No other key changes |
| SignUpForm.ChangeLastWins | test/src/component/SignUp.jsx:63-76 | two edits of one field leave what the second edit alone leaves |
| SignUpForm.ValidFormOnlyFailsOnDuplicate | test/src/component/SignUp.jsx:78-96 | a form that passes validation is refused by the store only as "email taken", exactly when the email is registered |
| SignUpForm.WhitespaceNameSplitsFormAndStore | test/src/component/SignUp.jsx:25-27 | a first name of one space is refused by the form, but the store's own sign-up accepts it |
| UiState.MapWhere | test/src/component/AdminDashboard.jsx:147-157 | `map` with an id test replaces the selected elements in place and keeps the length |
| UiState.Filter | test/src/component/AdminDashboard.jsx:519-522 | `filter` returns only kept elements of the list, and every kept element appears |
| UiState.FilterConcat | test/src/component/AdminDashboard.jsx:519-522 | filtering distributes over concatenation, which is what keeps the order |
| UiState.FilterKeepsAll | test/src/component/AdminDashboard.jsx:519-522 | a filter that keeps everything returns the list |
| UiState.FilterAgree | test/src/component/AdminDashboard.jsx:519-522 | tests that agree on every element filter alike |
| AdminDashboard.Verdict | test/src/component/AdminDashboard.jsx:152 | a review approves exactly for the action `'approve'`. Every other action rejects |
| AdminDashboard.ReviewSubmit | test/src/component/AdminDashboard.jsx:141-157 | An alert happens exactly for a rejection with a blank comment. Otherwise the length is kept. Matching submissions take the verdict and comment, with their other fields kept, and the rest are unchanged |
| AdminDashboard.ReviewAbsentIsNoOp | test/src/component/AdminDashboard.jsx:147-157 | reviewing an absent id leaves the list unchanged |
| AdminDashboard.ReviewLastWins | test/src/component/AdminDashboard.jsx:147-157 | reviewing the same id twice equals the second review alone |
| AdminDashboard.ReviewButtonsExample | test/src/component/AdminDashboard.jsx:141-157 | the approve button's empty comment approves submission 1 and leaves submission 2 alone. Rejecting with a comment of spaces alerts |
| AdminDashboard.AddAnalyst | test/src/component/AdminDashboard.jsx:172-191 | An alert happens exactly when one of the four fields is blank after trimming. Otherwise exactly one record is appended, with id `length + 1`, the typed names and email, active status, zero labelings and an empty reason. No password is kept |
| AdminDashboard.Suspend | test/src/component/AdminDashboard.jsx:199-211 | An alert happens exactly for a blank reason. Otherwise matching analysts are suspended with that reason and everything else is unchanged |
| AdminDashboard.RemoveSuspension | test/src/component/AdminDashboard.jsx:223-235 | An alert happens exactly for a blank reason. Otherwise matching analysts are active with the reason cleared and everything else is unchanged |
| AdminDashboard.SuspendThenRemoveRestores | test/src/component/AdminDashboard.jsx:199-235 | suspending an active analyst and then lifting the suspension gives back the original list |
| AdminDashboard.NumberedIdsUnique | test/src/component/AdminDashboard.jsx:181 | with ids numbered 1, 2, … in order, an id names at most one analyst |
| AdminDashboard.AnalystHandlersKeepNumbering | test/src/component/AdminDashboard.jsx:172-235 | add, suspend and remove-suspension all keep the ids numbered 1, 2, … in order |
| AdminDashboard.InitialAnalystsNumbered | test/src/component/AdminDashboard.jsx:45-66 | the initial analysts are numbered 1 and 2 |
| AdminDashboard.DuplicateEmailAccepted | test/src/component/AdminDashboard.jsx:172-191 | an existing analyst's email is accepted a second time, under a new id |
| AdminDashboard.Search | test/src/component/AdminDashboard.jsx:519-522 | the shown cards are exactly the analysts whose lower-cased email contains the lower-cased query |
| AdminDashboard.SearchEmptyShowsAll | test/src/component/AdminDashboard.jsx:519-522 | an empty query shows the whole list |
| AdminDashboard.SearchKeepsOrder | test/src/component/AdminDashboard.jsx:519-522 | searching a concatenation searches each part, so the relative order is kept |
| AdminDashboard.SearchIgnoresQueryCase | test/src/component/AdminDashboard.jsx:519-522 | a query and its lower-cased form show the same cards |
| AdminDashboard.SubmitNavigation | test/src/component/AdminDashboard.jsx:118-124 | an alert happens exactly when the start or the destination is blank after trimming. Otherwise loading starts |
| AdminDashboard.WhitespaceStartRefused | test/src/component/AdminDashboard.jsx:120 | a start of a space and a line break is refused, although it is not empty |
| AnalystDashboard.RoleGate | test/src/component/AnalystDashboard.jsx:41-55 | no stored user goes to `/login`. A role other than `'analyst'` goes to `/`. Only an analyst becomes the current user, unchanged |
| AnalystDashboard.GateAfterLogin | test/src/component/AnalystDashboard.jsx:48-54 | a record that the store's login returned is admitted exactly when its role is `'analyst'` |
| AnalystDashboard.SeedAccountsAtTheGate | test/src/component/AnalystDashboard.jsx:41-55 | the seeded analyst logs in and is admitted. The seeded traveler logs in and is sent home |
| AnalystDashboard.ResolveComplaint | test/src/component/AnalystDashboard.jsx:112-116 | the length is kept. Matching complaints become resolved with their other fields kept, and the others are unchanged |
| AnalystDashboard.ResolveIdempotent | test/src/component/AnalystDashboard.jsx:112-116 | resolving twice is resolving once |
| AnalystDashboard.ResolveAbsentIsNoOp | test/src/component/AnalystDashboard.jsx:112-116 | resolving an absent id changes nothing |
| AnalystDashboard.ResolveCommutes | test/src/component/AnalystDashboard.jsx:112-116 | two resolutions commute |
| AnalystDashboard.ResolveRemovesFromPending | test/src/component/AnalystDashboard.jsx:112-116 | the pending ids after resolving are the pending ids before, minus that id |
| AnalystDashboard.SubmitNavigation | test/src/component/AnalystDashboard.jsx:67-80 | a blank start gives the start message. Otherwise a blank destination gives the destination message. Otherwise loading starts. Both checks trim |
| AnalystDashboard.SameGuardAsAdmin | test/src/component/AnalystDashboard.jsx:70-78 | the analyst's and the administrator's forms accept exactly the same pairs of places |
| AnalystDashboard.Statistics | test/src/component/AnalystDashboard.jsx:272-283 | "Total Roads" and "Completed" both show the number of labeled roads, and "Pending Review" shows 0 |
| AnalystDashboard.Handle | test/src/component/AnalystDashboard.jsx:67-116 | no handler writes the labeled roads. Resolving replaces only the complaint list, by the resolved one. A blank start sets only the start message; otherwise a blank destination sets only the destination message; otherwise only the loading flag is raised |
| AnalystDashboard.RunKeepsLabeledRoads | test/src/component/AnalystDashboard.jsx:9 | after any sequence of events the labeled roads are what they were |
| AnalystDashboard.StatisticsStayZero | test/src/component/AnalystDashboard.jsx:272-283 | whatever the analyst does, the statistics card shows 0, 0 and 0 |
| RoadLabeling.LabelClick | test/src/component/RoadLabeling.jsx:114-120 | the key `tab-item` becomes a flag of the opposite truth. Every other key is unchanged |
| RoadLabeling.ClickTwiceRestores | test/src/component/RoadLabeling.jsx:114-120 | two clicks restore whether the item is selected, and no other key changes |
| RoadLabeling.ClickTwiceLeavesFlag | test/src/component/RoadLabeling.jsx:114-120 | two clicks on a never-clicked item leave it holding `false`, not absent |
| RoadLabeling.DistanceSelect | test/src/component/RoadLabeling.jsx:122-127 | `side-distance` holds the chosen option. Every other key is unchanged |
| RoadLabeling.DistanceLastWins | test/src/component/RoadLabeling.jsx:122-127 | two picks for one side equal the second pick alone |
| RoadLabeling.ShoulderSelect | test/src/component/RoadLabeling.jsx:129-134 | `side-shoulder` holds the chosen width. Every other key is unchanged |
| RoadLabeling.ShoulderWidthNeverWritten | test/src/component/RoadLabeling.jsx:359-381 | for every side passed, the `…-shoulder-width` key the buttons read is never changed by the handler |
| RoadLabeling.ObjectClickMissesCard | test/src/component/RoadLabeling.jsx:291-296 | an object click never changes the `left-obj` key the card reads, so the card's selection never changes |
| RoadLabeling.EditInfo | test/src/component/RoadLabeling.jsx:109-112 | the named road-information field takes the typed value, and the others are kept |
| RoadLabeling.StartLabeling | test/src/component/RoadLabeling.jsx:136-142 | an alert happens exactly when the road name or id is empty, with no trimming. Otherwise the step becomes labeling |
| RoadLabeling.BlankRoadNameAccepted | test/src/component/RoadLabeling.jsx:137 | a road name of one space is blank, yet it is accepted |
| RoadLabeling.SegmentCount | test/src/component/RoadLabeling.jsx:219 | the count is always at least 1. It equals the parsed value when that is at least 1, and is 1 otherwise (`NaN`, 0 or negative) |
| RoadLabeling.TypedCountKept | test/src/component/RoadLabeling.jsx:219 | typing a positive number n sets exactly n segments |
| RoadLabeling.EmptyOrNegativeCountIsOne | test/src/component/RoadLabeling.jsx:219 | an empty field and `-3` both give one segment |
| RoadLabeling.NextSegment | test/src/component/RoadLabeling.jsx:144-149 | Next advances and clears the labels exactly when a segment remains. Otherwise nothing changes. No other field changes |
| RoadLabeling.PrevSegment | test/src/component/RoadLabeling.jsx:151-155 | Previous moves back exactly above segment 1 and keeps the labels |
| RoadLabeling.NextThenPrevLosesLabels | test/src/component/RoadLabeling.jsx:144-155 | forward then back returns to the segment with its labels cleared |
| RoadLabeling.InitialCursorValid | test/src/component/RoadLabeling.jsx:105-107 | the initial session is on segment 1 of 1 in the information step |
| RoadLabeling.HandleKeepsCursor | test/src/component/RoadLabeling.jsx:109-155 | every handler the current view offers keeps `1 ≤ segment ≤ total`, with segment 1 until labeling starts |
| RoadLabeling.CountEditAfterStartStrandsCursor | test/src/component/RoadLabeling.jsx:219 | the count input is safe only because the labeling view hides it. Applied on segment 2 of 2 it would strand the cursor |
| RoadLabeling.RunKeepsCursor | test/src/component/RoadLabeling.jsx:144-155 | the cursor stays valid through any sequence of events the views offer |
| RoadLabeling.SessionCursorAlwaysValid | test/src/component/RoadLabeling.jsx:105-155 | from the initial session, `1 ≤ segmentNumber ≤ totalSegments` always holds, so the total is at least 1 |

## Left out

- **Browser effects are not modelled.** These are `console.log`, `navigate`, `window.location` and `localStorage`. The role gate takes the stored record as an `Option` of the record that login returns.
- **Parsing errors in the role gate.** `JSON.parse` on a malformed stored value, which throws inside the analyst dashboard's effect, is not modelled. Neither is a stored record without a `role` field.
- **Timer callbacks.** The `setTimeout` callbacks of the navigation handlers are not modelled, because they are timing, not logic: the route alert, the success message, the loading reset and the form reset. The model stops when the loading flag is raised.
- **Messages.** The store's reply messages are abstracted to error kinds. The "attempts remaining" count is kept in `WrongOtp`. Form, alert and navigation messages are kept as the exact strings.
- JsText.ToLower: `toLowerCase` is modelled for ASCII letters only. Other scripts' case mappings are tables this model does not carry.
- RoadLabeling.SegmentCount: numbers are unbounded. `parseInt` on a digit string beyond 2^53 loses precision in JavaScript, and beyond about 1.8·10^308 it gives `Infinity`. Neither is modelled.
- **Notification lookup.** The review, suspend and remove-suspension handlers look up the record again for a notification after the map. For an id that is not in the list that lookup throws a `TypeError`. The model returns the unchanged list. The buttons only pass ids from the list.
- **Form resets after a handler succeeds.** These are `setReviewData`, `setSuspensionData`, `setNewAnalyst` and `setShowAddAnalyst`. Other UI-only state is left out too: tab switching, the show-password toggles and `handleSaveAndExit`.
- **Assigning to an inherited name.** Issuing a code for an email spelt `__proto__` would replace the table's prototype in JavaScript instead of adding an entry. The model treats it as an ordinary key. Sign-up refuses such an email, because it has no `@`.
- AccountStore.VerifyOtp: a wrong code under an inherited name runs `attempts++` on the inherited value, which lies outside the two tables. The model leaves the tables unchanged and does not track that side effect.
- **Other handlers and screens.** The administrator dashboard's own role gate and the navigation field-change handlers of both dashboards are not part of this model. The traveler dashboard and the route table are not part of it either. The label taxonomy constants are data and are not modelled.
- **The sign-up page's submit handler** is covered only by `SignUpForm.ValidFormOnlyFailsOnDuplicate`, which relates the validator to the store. The success message, the redirect and the storage write are browser effects.
