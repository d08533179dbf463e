# buropa web demo — a Dafny model of its decision logic

The web demo lets a user pick a language (English, Arabic or French), type a
name, and then speak into the microphone while a circle pulses with the
loudness of the input. A small Node server serves the built files with a
single-page-application fall-back. This project models the parts of that
code that decide something, as pure functions over immutable records, and
proves what they promise:

- `static_server.dfy` (`StaticServer`): the request handler of `server.js`.
  A request URL is rewritten (root → entry document, no dot anywhere →
  entry document, rooted paths moved under `/public`), its content type is
  looked up from Node's `path.extname`, and the read outcome is mapped to
  200 / 404 / 500 with the entry-document fall-back. The file system is a
  map from the resolved path to the read's outcome; an absent path reads
  as `ENOENT`.
- `i18n.dfy` (`I18n`): the three translation tables and `getText`'s
  fall-back: requested language, then English, then the key itself, with
  JavaScript's `||` treating the empty string as missing.
- `intake.dfy` (`Intake`): the language-and-name screen as a transition
  function over `{step, selectedLang, userName, stored}`, where `stored` is
  the saved name in local storage. Continuing with a blank name does
  nothing; otherwise the trimmed name is saved and emitted.
- `app.dfy` (`App`): the controller that shows the intake screen while it
  holds no configuration and the voice screen while it does.
- `voice.dfy` (`Voice`): the voice screen — greeting with English
  fall-back, the microphone toggle, the error key for a failed microphone
  start, the status line, the text direction, and the per-session
  `mounted` guard of the animation-frame loop.
- `meter.dfy` (`Meter`): the integer sum of squared sample deviations from
  128 (a loop with invariants), and the clamped volume as its square
  `min(1, 9·sum / (128·128·n))`.
- `text.dfy` (`Text`): JavaScript's `trim` (its exact white-space set),
  `startsWith` and `lastIndexOf`; `wrappers.dfy`: `Option`; `bytes.dfy`: `byte`.

Behaviour of the code worth knowing:

- A missing file with an extension, such as `/missing.png`, gets the entry
  document with status 200 whenever that document exists; 404 is answered
  only when the entry document cannot be read either
  (`StaticServer.MissingImageServesIndex`).
- The "no extension" test is a test for a dot anywhere in the raw URL,
  query string included: `/about?v=1.2` is not rewritten to the entry
  document, while `/?lang=fr` is.
- The meter sums over one read of `frequencyBinCount` = 128 samples, half
  of the FFT size 256.
- A refused permission (`NotAllowedError`) is reported with the
  `micPermissionError` message; every other microphone failure with the
  `micNotSupported` one.
- The voice screen has two states, "listening" and "not listening".
- The catch block of the microphone start has no `mounted` guard, so a
  failure reported late by a session that was already torn down still
  turns listening off for the session running now
  (`Voice.StaleFailureStopsCurrentSession`).

## Model

| member | source | states |
|---|---|---|
| `Text.Trim` | stg-buropa-web/src/LanguageScreen.js:29 | `trim` gives an infix of the input with blank text on both sides, whose ends are not white space, and is empty exactly for a whitespace-only name |
| `Text.TrimPadded` | stg-buropa-web/src/LanguageScreen.js:29-31 | trimming a name padded with white space on either side gives back exactly the name |
| `Text.TrimIdempotent` | stg-buropa-web/src/LanguageScreen.js:29 | trimming an already trimmed name changes nothing |
| `Text.TrimOfTrimmed` | stg-buropa-web/src/LanguageScreen.js:29 | a name with no white space at either end is left unchanged by `trim` |
| `StaticServer.ResolvePath` | stg-buropa-web/server.js:39-49 | the resolved path is the entry document or ends with the URL; it always contains a dot; a URL starting with `/` always resolves to a path string beginning `/public/` (which `..` segments can still lead outside that directory) |
| `StaticServer.RootIsIndex` | stg-buropa-web/server.js:39 | `/` resolves to `/public/index.html` |
| `StaticServer.DotlessIsIndex` | stg-buropa-web/server.js:42-44 | any URL with no dot anywhere in it resolves to the entry document |
| `StaticServer.PrefixRules` | stg-buropa-web/server.js:47-49 | a URL with a dot that already starts with `/public/`, or does not start with `/`, is kept; any other rooted one gets `/public` prepended |
| `StaticServer.ResolveIdempotent` | stg-buropa-web/server.js:39-49 | resolving a resolved path gives the same path |
| `StaticServer.ResolveScript` | stg-buropa-web/server.js:47-49 | `/app.js` resolves to `/public/app.js` |
| `StaticServer.Extname` | stg-buropa-web/server.js:51 | the extension is a suffix of the last path component, a dot followed by neither dots nor slashes, and empty exactly when that component has no dot, is a dot file (its only dot is its first character) or is `..` |
| `StaticServer.ExtnameOfFileName` | stg-buropa-web/server.js:51 | for `dir/stem.ext` with a non-empty stem and extension, the extension read back is `.ext`, dots inside the stem notwithstanding |
| `StaticServer.ContentTypeIn` | stg-buropa-web/server.js:51-52 | the `||` fall-back never yields an empty type; the result is a table value or `application/octet-stream`, the latter, for a table without an entry for the empty extension (such as the server's), for every last component with no extension |
| `StaticServer.ContentType` | stg-buropa-web/server.js:51-52 | with the server's table, `application/octet-stream` is served exactly when the extension is not one of the fifteen listed |
| `StaticServer.TableHasNoDefault` | stg-buropa-web/server.js:7-23 | no entry of the server's table is empty or the generic binary type |
| `StaticServer.ContentTypeOfFileName` | stg-buropa-web/server.js:51-52 | any `dir/stem.ext` whose extension has a non-empty table entry is served with that entry |
| `StaticServer.ContentTypeOfBareName` | stg-buropa-web/server.js:51-52 | any `dir/base` whose last component has no dot, is a dot file or is `..` is served as `application/octet-stream`, for a table without an entry for the empty extension (such as the server's) |
| `StaticServer.ScriptContentType` | stg-buropa-web/server.js:9 | any `dir/name.js` has content type `text/javascript` |
| `StaticServer.HtmlContentType` | stg-buropa-web/server.js:8 | any `dir/name.html`, the entry document included, has content type `text/html` |
| `StaticServer.Handle` | stg-buropa-web/server.js:25-76 | every response has status 200, 404 or 500 and carries the three CORS headers; `OPTIONS` gets 200 with no body; a non-200 answer is a bare text message |
| `StaticServer.Answer` | stg-buropa-web/server.js:54-75 | the read ladder yields 200, 404 or 500 and keeps the CORS headers; the non-200 answers are text messages without a content type |
| `StaticServer.WithContentType` | stg-buropa-web/server.js:72 | a 200 response carries exactly the three CORS headers, unchanged, plus the given `Content-Type` |
| `StaticServer.OptionsIgnoresFiles` | stg-buropa-web/server.js:33-37 | a pre-flight response is the same whatever the file system holds, and has an empty body |
| `StaticServer.ServesFile` | stg-buropa-web/server.js:71-73 | a file that reads successfully is answered 200 with its extension's content type and its bytes |
| `StaticServer.MissingFileFallsBack` | stg-buropa-web/server.js:56-66 | on `ENOENT` the answer is the entry document as `text/html` with 200 if it can be read, else 404 `File not found`, whatever the requested extension |
| `StaticServer.MissingImageServesIndex` | stg-buropa-web/server.js:56-66 | `/missing.png` with an entry document present is answered 200 with the entry document |
| `StaticServer.ServerErrorExactly` | stg-buropa-web/server.js:67-69 | the status is 500 exactly when the read fails with a code other than `ENOENT`, and the body names that code |
| `StaticServer.NotFoundExactly` | stg-buropa-web/server.js:58-61 | the status is 404 exactly for a non-`OPTIONS` request whose file is missing and whose entry document cannot be read |
| `I18n.Lookup` | stg-buropa-web/src/i18n.js:40-42 | the language's non-empty string if it has one, else English's non-empty string, else the key |
| `I18n.GetText` | stg-buropa-web/src/i18n.js:40-42 | over the application's tables, a defined key gives the requested language's string when the language is supported and English's otherwise; an undefined key is shown as itself |
| `I18n.UnknownLanguageIsEnglish` | stg-buropa-web/src/i18n.js:41 | a language that is unknown, or lacks the key, gives what English gives |
| `I18n.LookupNeverEmpty` | stg-buropa-web/src/i18n.js:41 | a non-empty key never yields an empty text; the result is one of the two table entries or the key |
| `I18n.FrenchComplete` | stg-buropa-web/src/i18n.js:2-13 | the French table defines exactly the ten keys, none empty |
| `I18n.EnglishComplete` | stg-buropa-web/src/i18n.js:14-25 | the English table defines exactly the ten keys, none empty |
| `I18n.ArabicComplete` | stg-buropa-web/src/i18n.js:26-37 | the Arabic table defines exactly the ten keys, none empty |
| `I18n.TableLanguages` | stg-buropa-web/src/i18n.js:1-38 | the tables are exactly those of `fr`, `en` and `ar` |
| `I18n.TablesComplete` | stg-buropa-web/src/i18n.js:1-38 | each supported language's table has exactly the ten keys, each with a non-empty string |
| `Intake.OnMount` | stg-buropa-web/src/LanguageScreen.js:16-21 | a saved non-empty name replaces the name field; an absent or empty one leaves it; nothing else changes |
| `Intake.MountedState` | stg-buropa-web/src/LanguageScreen.js:11-21 | a mounted screen is on the language step with `en` selected and the saved name (or nothing) in the field |
| `Intake.Find` | stg-buropa-web/src/LanguageScreen.js:76 | a language with the code is found exactly when one is listed, and the name returned is that of the first language listed with the code |
| `Intake.LabelOf` | stg-buropa-web/src/LanguageScreen.js:76 | a name is shown exactly for an offered code, and it is the name listed with that code |
| `Intake.OfferedCodes` | stg-buropa-web/src/LanguageScreen.js:4-8 | the offered codes are exactly `en`, `ar` and `fr` |
| `Intake.SelectLanguage` | stg-buropa-web/src/LanguageScreen.js:23-26 | selecting sets the language to the code and moves to the name step, keeping the name and storage |
| `Intake.GoBack` | stg-buropa-web/src/LanguageScreen.js:35-37 | back returns to the language step and keeps language, name and storage |
| `Intake.HandleContinue` | stg-buropa-web/src/LanguageScreen.js:28-33 | a configuration is emitted exactly when the name is not whitespace-only; then its name is the trimmed, non-empty name, its language the selected one, and storage holds the same name; otherwise nothing changes |
| `Intake.Step` | stg-buropa-web/src/LanguageScreen.js:23-37 | only the continue button or Enter on the name step emits, and storage changes only when something is emitted; on their own step a language button selects, typing sets the name and the back arrow goes back; an event whose control the step does not show, or a key other than Enter, changes nothing |
| `Intake.ContinueIffEnabled` | stg-buropa-web/src/LanguageScreen.js:112 | continuing emits exactly when the button is enabled, and the button is disabled exactly for a whitespace-only name, in which case continuing is a no-op |
| `Intake.EnterIsContinue` | stg-buropa-web/src/LanguageScreen.js:106 | Enter in the field is the same transition as the continue button |
| `Intake.BackThenReselect` | stg-buropa-web/src/LanguageScreen.js:23-37 | back followed by choosing the same language restores the state exactly |
| `Intake.PaddedNameIsTrimmed` | stg-buropa-web/src/LanguageScreen.js:29-31 | a name typed with surrounding blanks is saved and emitted without them |
| `Intake.SelectionStaysOffered` | stg-buropa-web/src/LanguageScreen.js:23-26 | if every chosen code is offered, the selected language stays an offered one along any run |
| `Intake.SilentRunKeepsStorage` | stg-buropa-web/src/LanguageScreen.js:28-33 | a run with neither the continue button nor the Enter key never changes the saved name |
| `Meter.DeviationSum` | stg-buropa-web/src/VoiceScreen.js:38-42 | the loop computes the sum of squared deviations from 128, which lies between 0 and 128·128 per sample |
| `Meter.SilenceIffZero` | stg-buropa-web/src/VoiceScreen.js:38-42 | the sum is zero exactly when every sample is 128 |
| `Meter.SumAtLeast` | stg-buropa-web/src/VoiceScreen.js:38-42 | if each squared deviation is at least `m`, the sum is at least `m` per sample |
| `Meter.Level` | stg-buropa-web/src/VoiceScreen.js:43 | the clamped squared volume lies in [0, 1], is 0 exactly for a zero sum and 1 exactly when the unclamped value reaches 1 |
| `Meter.SilenceReadsZero` | stg-buropa-web/src/VoiceScreen.js:38-43 | a window of samples all at 128 reads as volume 0 |
| `Meter.SaturatedReadsOne` | stg-buropa-web/src/VoiceScreen.js:38-43 | a window of samples each 0 or 255 reads at the clamp, volume 1 |
| `Voice.UnknownLanguageGreetsInEnglish` | stg-buropa-web/src/VoiceScreen.js:62 | the greeting languages are `fr`, `en`, `ar`, and any other language gets the English greeting |
| `Voice.GreetingFramesName` | stg-buropa-web/src/VoiceScreen.js:4-8 | a supported language's greeting opens with its own salutation and ends with its own closing after the name |
| `Voice.Greeting` | stg-buropa-web/src/VoiceScreen.js:62 | the greeting opens with the language's salutation (English's for an unknown language) and the user's name is read back verbatim from it |
| `Voice.GreetingInjective` | stg-buropa-web/src/VoiceScreen.js:62 | different names give different greetings |
| `Voice.TextDirection` | stg-buropa-web/src/VoiceScreen.js:162-163 | the greeting is right to left exactly for `ar` |
| `Voice.RightToLeftIffArabicGreeting` | stg-buropa-web/src/VoiceScreen.js:162-163 | the layout is right to left exactly when the greeting shown is the Arabic one |
| `Voice.ErrorKey` | stg-buropa-web/src/VoiceScreen.js:50 | `NotAllowedError` maps to `micPermissionError` and every other error to `micNotSupported`, both defined message keys |
| `Voice.StatusKey` | stg-buropa-web/src/VoiceScreen.js:218 | the status key is `listening` exactly when listening, else `notListening` |
| `Voice.MessagesInOwnLanguage` | stg-buropa-web/src/VoiceScreen.js:218 | for a supported language the status line and error messages are that language's own strings |
| `Voice.InitialValid` | stg-buropa-web/src/VoiceScreen.js:11-13 | the screen starts not listening, without an error, with no session, and with a volume in range |
| `Voice.SetListening` | stg-buropa-web/src/VoiceScreen.js:20-60 | changing `listening` ends the running session or starts a fresh one, keeping the listening flag and the mounted session in step; an unchanged value changes nothing |
| `Voice.Tick` | stg-buropa-web/src/VoiceScreen.js:34-44 | a tick returns at once exactly when its session is no longer mounted; otherwise it reports the meter level of the samples it read, in [0, 1] |
| `Voice.FrameSetsLevel` | stg-buropa-web/src/VoiceScreen.js:34-44 | a frame of the mounted session sets the level to its samples' meter level: 0 for a silent window, 1 for a saturated one |
| `Voice.Step` | stg-buropa-web/src/VoiceScreen.js:20-60 | every event keeps listening and mounted session in step, mounts only a fresh session (the next number, which is then used up), and keeps the volume in [0, 1] |
| `Voice.Run` | stg-buropa-web/src/VoiceScreen.js:20-60 | along any run the listening flag and the mounted session stay in step |
| `Voice.MicToggles` | stg-buropa-web/src/VoiceScreen.js:174 | the button flips `listening` and leaves the error alone |
| `Voice.FailureStopsListening` | stg-buropa-web/src/VoiceScreen.js:48-51 | a start failure stops listening, ends the session, and shows the permission or not-supported key |
| `Voice.StartClearsError` | stg-buropa-web/src/VoiceScreen.js:32 | a successful start clears any earlier error |
| `Voice.TornDownTickIsInert` | stg-buropa-web/src/VoiceScreen.js:32-47 | a tick of a torn-down session returns at once: its frame changes nothing, and its late successful start only clears the error |
| `Voice.LiveStartMeasures` | stg-buropa-web/src/VoiceScreen.js:32-47 | a successful start of the mounted session clears the error and sets the level from the first read |
| `Voice.TornDownStaysDown` | stg-buropa-web/src/VoiceScreen.js:55-59 | once a session is torn down it is never mounted again, whatever events follow |
| `Voice.StopTearsDown` | stg-buropa-web/src/VoiceScreen.js:55-59 | turning listening off tears the running session down |
| `Voice.LevelStaysClamped` | stg-buropa-web/src/VoiceScreen.js:43 | the volume stays in [0, 1] along any run |
| `Voice.StaleFailureStopsCurrentSession` | stg-buropa-web/src/VoiceScreen.js:48-51 | a failure from a torn-down session still stops the session listening now |
| `App.VoiceProps` | stg-buropa-web/src/App.js:14-15 | in every reachable state the voice screen receives a trimmed, non-empty name, the one saved in the browser, with the configured language |
| `App.StartInv` | stg-buropa-web/src/App.js:6-9 | the application starts in a state where any configuration's name is trimmed, non-empty and saved |
| `App.StepKeepsInv` | stg-buropa-web/src/App.js:6-17 | every event keeps the configured name trimmed, non-empty and equal to the saved one |
| `App.RunKeepsInv` | stg-buropa-web/src/App.js:6-17 | every state reached from the start, along any sequence of events, keeps that invariant |
| `App.Step` | stg-buropa-web/src/App.js:6-17 | the saved name changes only when the intake screen completes, and then holds the configured name; back from the voice screen restarts the intake screen |
| `App.StartsChoosing` | stg-buropa-web/src/App.js:8-9 | with no configuration the intake screen is shown |
| `App.SelectShowsVoice` | stg-buropa-web/src/App.js:9 | a completed intake sets exactly the emitted configuration and opens a fresh voice screen with the selected language and trimmed name |
| `App.BackClearsConfig` | stg-buropa-web/src/App.js:16 | from any reachable voice screen, back clears the configuration and shows a fresh intake screen pre-filled with the confirmed name |
| `App.IntakeRoundTrip` | stg-buropa-web/src/App.js:8-17 | select, type a padded name, continue, back: the voice screen got the trimmed name and the intake field shows it again |

## Left out

- The HTTP plumbing: `http.createServer`, `listen` on port 3000, `console.log` lines, and the `'utf-8'` argument of `res.end`, which a byte buffer ignores.
- `path.join(__dirname, …)`: files are keyed by the resolved path string itself, so the normalisation of `..`, `.` and repeated slashes is not modelled. The server does follow `..`: `/../server.js` resolves to `/public/../server.js`, which reads `server.js` next to the server, and more `..` segments reach any file on disk; the model's `/public/` prefix is a fact about the path string, not a confinement.
- Both reads of one request see the same file system; a file changing between the first read and the entry-document read is not modelled.
- JavaScript prototype look-ups: keys such as `constructor` in `translations`, `greetings` or `mimeTypes` resolve to inherited properties in the source; the model's maps have only their own entries.
- Strings are sequences of Unicode scalar values, not UTF-16 code units; every character compared on its own (the slash, the dot, and every white-space character `trim` strips) lies in the Basic Multilingual Plane outside the surrogate range, where one code point is one code unit, so the two views agree on every comparison modelled.
- `services/service.js`: the randomised product list behind a timer and the object-URL wrapper are nondeterministic browser calls.
- The browser audio APIs (`AudioContext`, `getUserMedia`, `createAnalyser`, `getByteTimeDomainData`, `requestAnimationFrame`, `cancelAnimationFrame`, closing the context): their outcomes enter the model as the events `StartSucceeded`, `StartFailed` and `Frame`, each naming its session; a failure at any step of the start, and an error object without a `name`, are all one `StartFailed`.
- Meter.Level: the rendered volume is the square root of the modelled level (the initial volume 0.2 is kept as its square 0.04); the root, the floating-point rounding, and the derived circle size, gradient and shadow numbers are not modelled.
- Rendering: JSX, inline styles, hover handlers, the pulse animation and the focus colours.
- Local storage is one optional string; the storage key `buropa_user_name` is kept as a constant only.
