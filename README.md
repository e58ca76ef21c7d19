# A verified model of the blog's client-side logic

This project models, in Dafny, the logic of a blog's admin dashboard and its
public site, with the backend and the browser's drawing kept outside:

- the admin dashboard's **click effect**: particles burst from the pointer on
  mousedown, a 500 ms hold turns into a long press, and a release after a long
  press emits a bigger burst that grows with the hold. It has three modes,
  fireworks, hearts and confetti, and the mode and an on/off switch are kept in
  `localStorage`;
- the dashboard's **error translation**, which turns a backend error string into
  a Chinese message;
- the dashboard's **route guard**, which sends visitors without a user to the
  login page and a logged-in user away from it;
- the blog's **theme store**, which switches between light and dark, keeps
  `'dark'` on the document root in step, and remembers the choice;
- the dashboard's **profile store**: loading and saving a profile, uploading and
  deleting an avatar;
- the blog's **avatar upload**: checks, the storage path, and how failures are
  worded.

Where the source updates state in place, the model does too. The effect's closure
state is the fields of `FxController.Effect`, and each ball is a `FxBalls.Ball`
object updated in place. Dead balls are spliced out of the `balls` sequence by
an index loop. The theme store, the profile store and `localStorage` are also
classes. Pure parts are functions: burst sizes, the intensity step, the
translation tables, the guard's decision, paths and error wording.

Every random draw, clock reading, backend answer and browser capability is a
parameter of the operation that uses it. `Math.random()` values are reals in
[0, 1). Each event of the effect is a method call: mousedown, mouseup, the
long-press timer firing, an animation frame, a resize.

Three details of the effect are easy to misread:
- A press emits 10 to 29 balls, or 20 to 69 in confetti mode, because
  `randBetween(min, max)` is `floor(u·max) + min`.
- The stored mode is used verbatim whenever it is non-empty. It is not checked
  against the three known modes.
- `removeBall` skips the ball that slides into a spliced ball's place, so it does
  not remove every dead ball in one pass. `FxBalls.SweepRemoves` states exactly
  which ones it removes.

Three further behaviours of the code are stated and proved:
- **Orphaned timer.** A second mousedown with no mouseup in between overwrites
  the timer handle. A mouseup then clears only the last timer, so the first one
  still fires and starts a long press with no button held. See
  `FxController.OrphanedLongPress`.
- **Masked failure.** The profile store re-throws the reply's error *string*,
  and its `catch` reads `.message` from it. A failed profile save after a stored
  avatar is therefore reported with `undefined` as its error. See
  `ProfileStore.FailedSaveLooksLikeSuccess`.
- **Protected paths.** Of the paths the route table declares, only the login
  page needs no user, and a redirect can never loop. A path that no record
  matches has an empty `to.matched`, so it passes the guard even without a
  user. See `AdminRouter.ProtectedPaths`, `AdminRouter.NoRedirectLoop` and
  `AdminRouter.UnmatchedPathPasses`.

## Model

| member | source | states |
|---|---|---|
| FxPrefs.CurrentMode | admin/src/lib/fireworks.ts:6-8 | the mode is the stored `fx:mode` value verbatim when it is non-empty, else `fireworks`; it is never empty |
| FxPrefs.IsEnabled | admin/src/lib/fireworks.ts:10-12 | the effect is off exactly when `fx:enabled` holds the string `false` |
| FxPrefs.BoolText | admin/src/lib/fireworks.ts:23 | `String(v)` is `false` exactly for `false` |
| FxPrefs.SetEffectMode | admin/src/lib/fireworks.ts:14-20 | only `fx:mode` is written; a non-empty mode reads back as itself; the on/off switch reads the same as before |
| FxPrefs.SetEffectEnabled | admin/src/lib/fireworks.ts:22-28 | only `fx:enabled` is written; the switch reads back as `v`; the mode reads the same as before |
| Storage.LocalStorage.GetItem | blog/src/stores/theme.ts:10 | an item is present exactly when its key is stored, and then holds the stored value |
| Storage.LocalStorage.SetItem | blog/src/stores/theme.ts:24 | the key now maps to the value and every other key is unchanged |
| FxBurst.Ceil | admin/src/lib/fireworks.ts:82 | `Math.ceil`: the least integer not below `x` |
| FxBurst.RandBetween | admin/src/lib/fireworks.ts:144-146 | `randBetween(min, max)` exceeds `min` by a whole number, and lies in `[min, min + max)` for a positive `max` |
| FxBurst.RandBetweenRange | admin/src/lib/fireworks.ts:144-146 | for a whole `max >= 1`, `randBetween` lies in `[min, min + max - 1]`, and is whole when `min` is |
| FxBurst.PressBurst | admin/src/lib/fireworks.ts:64-67 | the press burst is a whole number, 20 to 69 in confetti mode and 10 to 29 otherwise |
| FxBurst.BoostBase | admin/src/lib/fireworks.ts:80-81 | the release base is 120 exactly in confetti mode, and at least 50 |
| FxBurst.ReleaseBurst | admin/src/lib/fireworks.ts:80-82 | with `c = ceil(multiplier)` and base `b`, whenever `b + 60 + c >= 1` the release burst is a whole number between `b + c` and `2b + 59 + 2c` |
| FxBurst.Iterations | admin/src/lib/fireworks.ts:139 | the `for (i = 0; i < count; i++)` loop runs the least number of times that is not below `count` |
| FxBurst.IterationsOfWhole | admin/src/lib/fireworks.ts:139 | for a whole, non-negative count the loop runs exactly `count` times |
| FxBurst.PressBurstRange | admin/src/lib/fireworks.ts:64-67 | a press emits 20 to 69 balls in confetti mode and 10 to 29 in any other mode |
| FxBurst.ReleaseBurstRange | admin/src/lib/fireworks.ts:80-82 | with `c = ceil(multiplier)` and base `b` (120 for confetti, else 50), a release emits between `b + c` and `2b + 59 + 2c` balls; `c >= 0`, so at least `b` |
| FxBurst.NextMultiplier | admin/src/lib/fireworks.ts:188-192 | the intensity rises during a long press, never rises otherwise, and does not fall below -0.4 once at or above it |
| FxBurst.MultiplierBounded | admin/src/lib/fireworks.ts:188-192 | from any start at or above -0.4 (such as 0), every sequence of frames keeps the intensity at or above -0.4 |
| FxBurst.CeilNotNegative | admin/src/lib/fireworks.ts:82 | an intensity at or above -0.4 has a non-negative ceiling |
| FxBalls.Speed | admin/src/lib/fireworks.ts:115 | a ball's speed is in `[6, 18)`, or in `[14 + m, 29 + 2m)` during a long press at intensity `m >= -0.4` |
| FxBalls.InitialRadius | admin/src/lib/fireworks.ts:118 | a new ball's radius is in `[6, 20)` |
| FxBalls.ColorIndex | admin/src/lib/fireworks.ts:119 | a random draw scaled by four and truncated always indexes the palette |
| FxBalls.Spawn | admin/src/lib/fireworks.ts:111-121 | a new ball sits at the given point, with a radius in `[6, 20)` and a colour from the palette |
| FxBalls.Stepped | admin/src/lib/fireworks.ts:122-135 | an update shrinks the radius and keeps the angle, speed and colour |
| FxBalls.Ball.constructor | admin/src/lib/fireworks.ts:111-121 | the new object's fields are those of `Spawn` for its draws, the long-press flag and the intensity |
| FxBalls.Ball.Update | admin/src/lib/fireworks.ts:122-135 | the fields after `update()` are `Stepped` of the fields before (radius -0.3, velocity ×0.9, confetti gravity +0.12 and spin +0.1) |
| FxBalls.Gone | admin/src/lib/fireworks.ts:200 | a ball is kept exactly when its radius is not negative and its centre is within one radius of the viewport on both axes |
| FxBalls.Sweep | admin/src/lib/fireworks.ts:197-204 | what `removeBall` leaves is never longer than the population (`SweepAsMask` and `SweepRemoves` say which balls) |
| FxBalls.DeadFlags | admin/src/lib/fireworks.ts:200 | one flag per ball, set exactly for balls out of the viewport by more than their radius or with a negative radius |
| FxBalls.RemovalMaskRule | admin/src/lib/fireworks.ts:197-204 | a place is removed exactly when its ball is dead and the place before it was not removed |
| FxBalls.SweepAsMask | admin/src/lib/fireworks.ts:197-204 | what `removeBall` leaves is the balls at the places the removal mask does not mark, in order |
| FxBalls.SweepRemoves | admin/src/lib/fireworks.ts:197-204 | `removeBall` removes only dead balls; never two neighbours; a dead first ball and any dead ball after a kept one |
| FxBalls.KeepAt | admin/src/lib/fireworks.ts:197-204 | a kept ball lands at the place given by the number of kept balls before it |
| FxBalls.KeptInOrder | admin/src/lib/fireworks.ts:197-204 | survivors keep their relative order |
| FxBalls.SweepKeepsLive | admin/src/lib/fireworks.ts:197-204 | every ball that is not dead survives the pass |
| FxController.Effect.constructor | admin/src/lib/fireworks.ts:36-44 | no balls, no long press, no timer, intensity 0 |
| FxController.Effect.Resize | admin/src/lib/fireworks.ts:95-96 | the bounds used by `removeBall` become the new size; nothing else changes, and the effect's invariant is kept |
| FxController.Effect.PushBalls | admin/src/lib/fireworks.ts:138-142 | the existing balls stay; exactly `Iterations(count)` new, distinct balls follow, each spawned at the point with the current flag and intensity |
| FxController.Effect.MouseDown | admin/src/lib/fireworks.ts:62-73 | when off, nothing changes; when on, a press burst of 10–29 (confetti 20–69) new balls, `is-pressed` added, a new timer armed and remembered; every added ball is newly created; the long-press flag and the intensity untouched |
| FxController.Effect.TimerFire | admin/src/lib/fireworks.ts:69-72 | the fired timer is no longer pending, `is-longpress` is added and the long press begins; nothing else changes |
| FxController.Effect.MouseUp | admin/src/lib/fireworks.ts:75-86 | the last armed timer is cleared in every case; when off, only `is-pressed` is removed and no balls are added; when on, a release burst sized by the intensity follows only a long press, which then ends; every added ball is newly created |
| FxController.Effect.Frame | admin/src/lib/fireworks.ts:164-195 | each ball with a non-negative radius is updated and the others are left as they were; the intensity takes one step; then the population is what `removeBall` leaves |
| FxController.Effect.StepBalls | admin/src/lib/fireworks.ts:168-187 | a ball whose radius is negative at its turn keeps its state; every other ball is `Stepped` to its new position, once |
| FxController.Effect.RemoveBall | admin/src/lib/fireworks.ts:197-204 | the in-place splice loop leaves exactly `Sweep` of the population and keeps the balls distinct |
| FxController.SweepSpliceDead | admin/src/lib/fireworks.ts:200-201 | splicing out a dead ball and advancing the index preserves what the sweep will leave |
| FxController.SweepPassLive | admin/src/lib/fireworks.ts:198-203 | passing over a live ball preserves what the sweep will leave |
| FxController.OrphanedLongPress | admin/src/lib/fireworks.ts:62-86 | two presses then one release leave the first timer armed; when it fires the long press starts with `is-pressed` already removed |
| FxController.Page.constructor | admin/src/lib/fireworks.ts:1 | not yet initialised, no canvas, no effect |
| FxController.Page.InitClickFireworks | admin/src/lib/fireworks.ts:30-60 | a repeated call, or one without window or document, changes nothing; the first real call appends exactly one canvas whether or not a 2d context exists; an effect exists exactly when a context was obtained, starting with no balls, no armed long-press timer, the viewport's width and height and, after its first frame, intensity -0.4 |
| ErrorMessages.FirstHit | admin/src/utils/errorMessages.ts:42-60 | the first table entry, in declaration order, whose key occurs in the text; none exactly when no key occurs |
| ErrorMessages.TablesHaveMessages | admin/src/utils/errorMessages.ts:10-39 | every message in both tables is non-empty |
| ErrorMessages.StripDetail | admin/src/utils/errorMessages.ts:63 | `/^.*?: /` removes everything up to and including the first `": "`, unless a line terminator comes before it |
| ErrorMessages.PhraseMessage | admin/src/utils/errorMessages.ts:50-58 | the message of a found phrase is never empty; every phrase but the password one gives its table message; the password phrase's message starts with `密码长度至少` |
| ErrorMessages.FallbackMessage | admin/src/utils/errorMessages.ts:63 | the fallback text is never empty |
| ErrorMessages.TranslateError | admin/src/utils/errorMessages.ts:4-64 | the result is never empty; `null`, `undefined` and `""` give `未知错误` |
| ErrorMessages.CodeKeyDecides | admin/src/utils/errorMessages.ts:42-46 | a code key found in the lower-cased input, with no earlier code key found, gives that key's message whatever phrases the input contains |
| ErrorMessages.CodeTableFirst | admin/src/utils/errorMessages.ts:41-46 | once any code key is found, the result is a message of the code table |
| ErrorMessages.PhraseDecides | admin/src/utils/errorMessages.ts:48-59 | with no code key, the first phrase found decides; every phrase but the password one yields its fixed message |
| ErrorMessages.PasswordLength | admin/src/utils/errorMessages.ts:52-58 | when the password phrase decides, the result is `密码长度至少<first digit run>位`, or `密码长度至少` when the input has no digit |
| ErrorMessages.NoKeyFallsBack | admin/src/utils/errorMessages.ts:62-63 | with no key of either table, the result is the stripped, trimmed input, or `操作失败，请重试` when that is empty |
| Strings.ToLower | admin/src/utils/errorMessages.ts:7 | same length; each character is lower-cased if it is an ASCII capital and kept otherwise |
| Strings.Contains | admin/src/utils/errorMessages.ts:43-50 | `includes` holds exactly when `indexOf` from the start finds the text |
| Strings.IndexOf | admin/src/utils/errorMessages.ts:63 | the first place at or after `k` where the text occurs, or none exactly when it occurs nowhere from `k` on |
| Strings.FirstDigitRun | admin/src/utils/errorMessages.ts:53 | `/(\d+)/`: none exactly when there is no digit; otherwise a non-empty run of digits that is a slice of the text, with no digit before it and none right after it |
| Strings.Trim | admin/src/utils/errorMessages.ts:63 | the slice of the text left after removing its leading and trailing white space and line terminators; neither end of it is such a character; empty exactly when the text is all such characters |
| Strings.Split | admin/src/stores/profile.ts:108 | at least one part, none containing the separator |
| Strings.JoinSplit | admin/src/stores/profile.ts:108 | joining the parts with the separator gives back the text |
| Strings.Join | admin/src/stores/profile.ts:108 | the first part starts the result, and two or more parts put the separator in it |
| Strings.SplitJoin | admin/src/stores/profile.ts:108 | splitting the join of parts free of the separator gives back the parts |
| Strings.SplitAround | admin/src/stores/profile.ts:108 | the parts of `a c b` are the parts of `a` followed by those of `b` |
| Strings.LastSegment | admin/src/stores/profile.ts:102 | `split(c).pop()` never contains the separator |
| Strings.LastSegmentAfter | blog/src/lib/avatar.ts:10 | the last part is what follows the last separator |
| Strings.LastTwoSegments | admin/src/stores/profile.ts:108 | `split(c).slice(-2).join(c)` of a text without the separator is the text itself |
| Strings.LastTwoSegmentsAfter | admin/src/stores/profile.ts:148 | `split('/').slice(-2).join('/')` of a text ending in `/b1/b2` is `b1/b2` |
| Strings.LastTwoSegmentsOne | admin/src/stores/profile.ts:108 | with exactly one separator, `b1 c b2`, the last two parts joined are the whole text |
| Strings.DecimalString | admin/src/stores/profile.ts:103 | the decimal form of `Date.now()` is non-empty, all digits, and has no leading zero unless it is `0` |
| Strings.DecimalStringValue | admin/src/stores/profile.ts:103 | the digits of the decimal form, read back in base ten, are the number itself |
| AdminRouter.Flag | admin/src/router/index.ts:61 | a record counts as protected exactly when its `requiresAuth` is `true`; absent or `false` does not |
| AdminRouter.Matched | admin/src/router/index.ts:61 | a path that matches gives the flags of at least one record |
| AdminRouter.RequiresAuth | admin/src/router/index.ts:61 | true exactly when some matched record requires a user |
| AdminRouter.Decide | admin/src/router/index.ts:63-69 | no user on a protected route goes to `/login`; otherwise a user on `/login` goes to `/`; navigation proceeds exactly in every other case |
| AdminRouter.BeforeEach | admin/src/router/index.ts:53-70 | the auth store is initialised exactly when it has no user and is not loading, and the decision then uses the user it has afterwards |
| AdminRouter.TableFlags | admin/src/router/index.ts:5-45 | `/login` matches one public record, `/` one protected record, and every child path the protected parent followed by the child |
| AdminRouter.ProtectedPaths | admin/src/router/index.ts:5-45 | a path of the table needs a user exactly when it is not `/login` |
| AdminRouter.NoRedirectLoop | admin/src/router/index.ts:61-68 | every redirect target is in the table and passes the guard without a further redirect |
| AdminRouter.UnmatchedPathPasses | admin/src/router/index.ts:61-69 | a path no record declares matches nothing, and the guard lets it through with no user |
| ThemeStore.Toggled | blog/src/stores/theme.ts:22 | the result is `light` or `dark`, and `dark` exactly when the theme was `light` |
| ThemeStore.ToggleTwice | blog/src/stores/theme.ts:22 | toggling twice restores `light` or `dark` |
| ThemeStore.InitialTheme | blog/src/stores/theme.ts:9-17 | a non-empty saved theme is used verbatim; otherwise `dark` exactly when the system prefers dark |
| ThemeStore.Applied | blog/src/stores/theme.ts:27-33 | the root has `dark` exactly when the theme is `dark`, and no other class changes |
| ThemeStore.Theme.constructor | blog/src/stores/theme.ts:7 | the theme starts as `light` |
| ThemeStore.Theme.InitTheme | blog/src/stores/theme.ts:9-19 | the theme comes from storage or the system preference, the root follows it, and storage is not written |
| ThemeStore.Theme.ToggleTheme | blog/src/stores/theme.ts:21-25 | the theme flips, the root follows it, and storage holds the new theme under `theme` with nothing else changed |
| ThemeStore.Theme.ApplyTheme | blog/src/stores/theme.ts:27-33 | the root's classes are brought in step with the theme |
| ProfileStore.Caught | admin/src/stores/profile.ts:86-87 | a caught error object gives its message; a caught bare string gives `undefined`, which is never a visible error |
| ProfileStore.TargetId | admin/src/stores/profile.ts:32-35 | a non-empty `userId` wins, else a non-empty profile id; none exactly when neither exists |
| ProfileStore.ShouldUpdate | admin/src/stores/profile.ts:49 | the row is updated exactly when it was found and the lookup did not answer `PGRST116` |
| ProfileStore.WriteFor | admin/src/stores/profile.ts:49-78 | an update of the target row exactly when it exists, else an insert; every given field is written; `updated_at` is always stamped; an insert adds `created_at` and an id that the updates may override |
| ProfileStore.WriteReply | admin/src/stores/profile.ts:61-87 | a failed write replies with no data and its error message; a successful one with its data and no error |
| ProfileStore.UpdateReply | admin/src/stores/profile.ts:31-91 | without a target the reply is `User ID is required`; data comes back only from a successful write; no error exactly when there was a target and the write succeeded |
| ProfileStore.Adopted | admin/src/stores/profile.ts:81-83 | the local profile is replaced only when the reply carries data |
| ProfileStore.Loaded | admin/src/stores/profile.ts:14-25 | a lookup error other than `PGRST116` leaves no profile; otherwise the returned data is kept, even next to `PGRST116` |
| ProfileStore.FileExt | admin/src/stores/profile.ts:102 | the extension contains no dot, and a name without a dot is its own extension |
| ProfileStore.AvatarFileName | admin/src/stores/profile.ts:102-103 | the file name starts with `<id>-` and keeps the upload's extension |
| ProfileStore.AvatarPath | admin/src/stores/profile.ts:104 | the path starts with the user's folder `<id>/` |
| ProfileStore.HasAvatar | admin/src/stores/profile.ts:107 | an avatar is present exactly when the profile exists and its `avatar_url` is truthy |
| ProfileStore.OldAvatarPath | admin/src/stores/profile.ts:108 | a URL without a slash is its own storage path |
| ProfileStore.OldAvatarPathOne | admin/src/stores/profile.ts:108 | a URL with a single slash, `b1/b2`, is its own storage path |
| ProfileStore.ExtOfDottedName | admin/src/stores/profile.ts:102 | the extension of `base.ext` is `ext` |
| ProfileStore.AvatarPathParts | admin/src/stores/profile.ts:102-104 | a new avatar's path is the user's folder and one file, and the file keeps the upload's extension |
| ProfileStore.OldPathOfNewAvatar | admin/src/stores/profile.ts:102-108 | the old path the store later takes from any public URL ending in `/<path>` is the path it uploaded |
| ProfileStore.UploadReply | admin/src/stores/profile.ts:128-136 | after a stored upload the URL is returned exactly when the save shows no error, and the reply never carries a visible error |
| ProfileStore.DeleteReply | admin/src/stores/profile.ts:156-162 | after a removed file the reply shows no error exactly when the save showed none, and never a visible one |
| ProfileStore.FailedSaveLooksLikeSuccess | admin/src/stores/profile.ts:128-136 | a failed profile save after a stored upload is reported with no data and `undefined` as the error |
| ProfileStore.Store.constructor | admin/src/stores/profile.ts:7-8 | no profile, not loading |
| ProfileStore.Store.LoadProfile | admin/src/stores/profile.ts:11-28 | the profile becomes `Loaded` of the answer and loading is off afterwards |
| ProfileStore.Store.UpdateProfile | admin/src/stores/profile.ts:31-91 | without a target: the `User ID is required` reply, no write, `loading` untouched; otherwise the write `WriteFor` picks, its reply, loading off. The profile is replaced only by returned data |
| ProfileStore.Store.UploadAvatar | admin/src/stores/profile.ts:94-140 | without a target nothing happens; otherwise the upload goes to `AvatarPath`. A present avatar's old path is removed first. An upload error is returned as it is. After a stored upload, the save's outcome is masked as `UploadReply` states |
| ProfileStore.Store.DeleteAvatar | admin/src/stores/profile.ts:143-166 | without an avatar it replies `No avatar to delete` and does nothing else; otherwise it removes the path taken from the URL, returns a removal error as it is, then clears `avatar_url` with the save's failure masked |
| ProfileStore.Store.Reset | admin/src/stores/profile.ts:169-171 | the profile is cleared |
| BlogAvatar.Check | blog/src/lib/avatar.ts:5-8 | the missing file is reported first, then the missing user, then a size over 5 MiB; every other input passes |
| BlogAvatar.ExactLimitPasses | blog/src/lib/avatar.ts:7-8 | a file of exactly 5 MiB passes and one byte more is too large |
| BlogAvatar.Ext | blog/src/lib/avatar.ts:10 | the extension is never empty and has no dot; it differs from the last dot-part only when that part is empty, and is then `png` |
| BlogAvatar.ExtOfName | blog/src/lib/avatar.ts:10 | `base.ext` has extension `ext`, or `png` when `ext` is empty |
| BlogAvatar.UploadPath | blog/src/lib/avatar.ts:11 | the path starts with `avatars/<userId>/` |
| BlogAvatar.UploadPathParts | blog/src/lib/avatar.ts:11 | the path is `avatars`, the user's folder, and a file named by the time and extension |
| BlogAvatar.ContentType | blog/src/lib/avatar.ts:17 | the file's own type when it has one, else `image/png`; never empty |
| BlogAvatar.UploadFailure | blog/src/lib/avatar.ts:19-28 | a message containing `bucket` gives the bucket message; failing that, one containing `unauthorized` in any ASCII case gives the permission message; anything else is passed on as it is |
| BlogAvatar.BucketBeforePermission | blog/src/lib/avatar.ts:21-26 | the bucket check wins when both words occur |
| BlogAvatar.BucketIsCaseSensitive | blog/src/lib/avatar.ts:21-27 | `Bucket` in capitals is not the bucket failure and is passed on as it is |
| BlogAvatar.UploadAvatar | blog/src/lib/avatar.ts:3-42 | a failed check uploads nothing; otherwise the upload goes to `UploadPath` with `ContentType`. An upload failure is worded by `UploadFailure`, and an empty public URL is an error. Resolving requires a non-empty URL, and it is the one written to the user's metadata |

## Left out

- Drawing: the canvas, its styles and device-pixel-ratio sizing, `clearRect`, arcs, the heart curve and the confetti rectangles (admin/src/lib/fireworks.ts:46-53, 88-94, 148-185). They only paint.
- Motion: the new position of each ball in a frame is given to `FxController.Effect.Frame`, and the cosine and sine of a ball's angle are given with its draws. The `normal` drift vector and its trigonometry are floating-point geometry.
- Randomness and time: `Math.random()`, `Date.now()` and `new Date().toISOString()` are parameters.
- Scheduling: `setTimeout`, `clearTimeout`, `requestAnimationFrame` and the event listeners are replaced by the `Effect` methods. The model does not enforce that a timer fires 500 ms after it was armed, only that it fires while still armed.
- `FxController.Effect.Frame`: `update()` reads the mode once per ball (admin/src/lib/fireworks.ts:130). The model reads it once per frame, which gives the same result because nothing writes storage during a frame.
- `FxController.Page.InitClickFireworks`: the direct `updateSize()` call made at set-up is folded into the effect's initial width and height.
- Floating point: every real is exact, not an IEEE double.
- `FxBurst.MultiplierBounded`: the bound is proved in exact reals, so the rounding of repeated +0.2/-0.4 steps on doubles is not covered.
- `Strings.ToLower`: only ASCII letters are lower-cased, not the full Unicode case mapping of `toLowerCase`.
- Characters: strings are sequences of Unicode scalar values, not UTF-16 code units.
- The backend: every Supabase call becomes a parameter holding its answer. The answer of `uploadAvatar`'s `remove` of the old file is ignored, as the code ignores it. Asynchronous interleavings, in which another action runs between two awaits, are not modelled, and neither is the `console.error` logging.
- `AdminRouter.Matched`: route matching is reduced to an exact path lookup over the declared table. Vue Router's pattern matching (such as the `:id` parameter) and the `redirect: '/posts'` of `/` are not modelled. Its own contract says only that a match is non-empty; what the declared table matches is stated by `AdminRouter.TableFlags`.
- `ProfileStore.Store.UpdateProfile`: `Partial<Profile>` is a map from column names to values or null. Its content is not checked against the table's columns.
- Not part of this model:
  - admin/src/stores/auth.ts, which only forwards calls to the backend;
  - blog/src/stores/profile.ts, which repeats the admin `loadProfile` rule;
  - blog/src/lib/supabase.ts: only the `Profile` fields are borrowed from it;
  - blog/src/router/index.ts.
