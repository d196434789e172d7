# Teleprompter and reader-app core in Dafny

This project models the logic at the heart of two apps for smart glasses.

The first is a guitar-tab teleprompter written in TypeScript. It cuts a tab file into display windows that prefer to break at a blank line. It keeps a session store of the loaded files, the tempo, the play flag and the current window. A playback engine advances one window per four-beat measure. A trailing-edge throttle sits in front of the display. A gesture router maps ring taps, scrolls and double taps onto store actions and runs a modal "End this feature?" prompt. A parser reads title, artist, tuning and tempo headers from a tab file.

The second is a Kotlin reader app, of which three parts are modelled:

- the JSON writers of its web interop layer (`jsonValue`, `buildJsonArray`, `buildJsonObjectInternal`, `escapeJson`);
- the log formatter of its browser build (`formatJsObject`, `jsonObject`, `jsonValue`, `escapeJson`);
- its book and chapter records.

Modules, one per source concern:

- `Wrappers`: `Option`.
- `Text`: JavaScript's `split('\n')`, `join` and `trim()`.
- `Decimal`: reading and writing decimal digits.
- `Fragmenter`: `fragmentTabContent`.
- `Store`: the session signals as a class `Session`.
- `Engine`: the playback timer as a class `PlaybackEngine`.
- `Throttle`: the throttle as pure state-machine functions, and a class `Throttler` proved against them.
- `Events`: the gesture router as a class `Router`.
- `TabParser`: `parseTabFile`.
- `Json`: the shared string escape and JSON layouts, plus a JSON reader.
- `JsInterop`: the interop writers.
- `AppJs`: the log formatter.
- `Books`: the book records.

The JSON reader in `Json` is the partner of every writer. Each writer is proved to produce text that this reader reads back as the value it was given. The reader is lenient in one way: like the writers, it lets raw control characters through inside a string, which section 7 of RFC 8259 forbids (see "## Left out").

The imperative source code takes the form of methods with loops and of classes whose methods update their fields. Each is proved against a specification function. The pure parts are functions and lemmas.

## Model

All source paths are relative to the repository root. `JsInteropUtils.kt` is `composeApp/src/webMain/kotlin/com/fzfstudio/eh/innovel/sdk/JsInteropUtils.kt`, `App.js.kt` is `composeApp/src/jsMain/kotlin/com/fzfstudio/eh/innovel/App.js.kt` and `BookModel.kt` is `composeApp/src/webMain/kotlin/com/fzfstudio/eh/innovel/models/BookModel.kt`; the table spells them out.

| member | source | states |
|---|---|---|
| Text.Split | teleprompter/src/glasses/fragmenter.ts:15 | `split('\n')` never returns an empty list, and no piece contains a newline |
| Text.JoinSplit | teleprompter/src/glasses/fragmenter.ts:15 | joining the pieces of `split('\n')` with newlines gives back the text |
| Text.SplitJoin | teleprompter/src/glasses/fragmenter.ts:40 | `split('\n')` undoes `join('\n')` on newline-free lines |
| Text.SplitAppend | teleprompter/src/parser/tab-parser.ts:5 | splitting at a newline splits the two sides independently |
| Text.Trim | teleprompter/src/parser/tab-parser.ts:14 | `trim()` is empty exactly when the text is all white space; otherwise it starts and ends with a non-white-space character |
| Decimal.DigitRun | teleprompter/src/parser/tab-parser.ts:30 | the length of the leading digit run: all digits before it, a non-digit at it |
| Decimal.Show | composeApp/src/webMain/kotlin/com/fzfstudio/eh/innovel/sdk/JsInteropUtils.kt:304-307 | `toString()` of a whole number is a non-empty digit string with no leading zero |
| Decimal.ValueShow | composeApp/src/webMain/kotlin/com/fzfstudio/eh/innovel/sdk/JsInteropUtils.kt:304-307 | reading back the decimal text of a number gives the number |
| Decimal.ShowInjective | composeApp/src/webMain/kotlin/com/fzfstudio/eh/innovel/sdk/JsInteropUtils.kt:304-307 | different numbers are written differently |
| Fragmenter.LastBlankIn | teleprompter/src/glasses/fragmenter.ts:28-33 | the highest blank line in the range, or -1, with no blank line above it in the range |
| Fragmenter.FindBreak | teleprompter/src/glasses/fragmenter.ts:27-33 | the backward `for` loop with early `break` finds exactly `LastBlankIn` |
| Fragmenter.WindowEnd | teleprompter/src/glasses/fragmenter.ts:22-37 | a window is non-empty and holds at most `linesPerWindow` lines; it reaches the end of the text exactly when the greedy cut does |
| Fragmenter.WindowEndBreaks | teleprompter/src/glasses/fragmenter.ts:26-36 | a shortened window ends just after the highest blank line of `[start + max(floor(0.6 L), 1), greedy end)`; with no blank line there it is `L` lines long |
| Fragmenter.Fragment | teleprompter/src/glasses/fragmenter.ts:44 | the result is never empty |
| Fragmenter.FragmentTabContent | teleprompter/src/glasses/fragmenter.ts:11-45 | the `while` loop over window starts, with the inner break search, returns exactly `Fragment` and terminates |
| Fragmenter.JoinWindowsFrom | teleprompter/src/glasses/fragmenter.ts:39-41 | the windows from a line on join back to the lines from that line on |
| Fragmenter.FragmentRoundTrip | teleprompter/src/glasses/fragmenter.ts:15-41 | joining the windows with newlines reproduces the text exactly |
| Fragmenter.FragmentShortText | teleprompter/src/glasses/fragmenter.ts:22-25 | a text of at most `linesPerWindow` lines is the single window `[content]` |
| Fragmenter.FragmentSingleLine | teleprompter/src/glasses/fragmenter.ts:15-44 | a text without a newline is exactly one window, itself |
| Fragmenter.FragmentIsWindows | teleprompter/src/glasses/fragmenter.ts:44 | the `['']` fallback never applies: the windows are exactly those the loop pushes |
| Fragmenter.WindowAt | teleprompter/src/glasses/fragmenter.ts:39-41 | window k is the join of its own run of lines, and the next window starts where it ends |
| Fragmenter.WindowLines | teleprompter/src/glasses/fragmenter.ts:39-41 | window k splits back into its own run of lines; more windows follow exactly when lines remain after the greedy cut |
| Fragmenter.FragmentWindowSize | teleprompter/src/glasses/fragmenter.ts:22-41 | every window holds between 1 and `linesPerWindow` lines |
| Fragmenter.FragmentInnerWindow | teleprompter/src/glasses/fragmenter.ts:22-41 | a non-final window shorter than `linesPerWindow` lines ends in a blank line at an offset in the search range; a non-final window with no blank line there holds exactly `linesPerWindow` lines |
| Store.FindIndex | teleprompter/src/state/store.ts:20 | `find` by id: the first index holding the id, or none when no file has it |
| Store.FindFile | teleprompter/src/state/store.ts:41 | the file found has the id and is one of the files; none means no file has the id |
| Store.FindFileFirst | teleprompter/src/state/store.ts:41 | when several files share an id, `find` gives the first of them |
| Store.FindFileAppend | teleprompter/src/state/store.ts:74 | appending a file never changes which file an id already finds |
| Store.ClampBpm | teleprompter/src/state/store.ts:54 | `max(40, min(300, v))`: within [40, 300], `v` itself when in range, the nearer bound otherwise |
| Store.Session.constructor | teleprompter/src/state/store.ts:7-12 | no files, no selection, tempo 120, not playing, index 0, no windows |
| Store.Session.CurrentFile | teleprompter/src/state/store.ts:17-21 | none for a null or empty id; otherwise `FindFile` of the id: the first file with that id, or none when there is none |
| Store.Session.CurrentWindow | teleprompter/src/state/store.ts:23-28 | the window at the index when it is in range, the empty string otherwise |
| Store.Session.TotalWindows | teleprompter/src/state/store.ts:30 | the number of windows |
| Store.Session.Progress | teleprompter/src/state/store.ts:32-36 | 0 with no windows; otherwise `(index + 1) / total * 100` rounded half up; within [0, 100] for a valid index and 100 at the last window |
| Store.RoundHalfUp | teleprompter/src/state/store.ts:35 | `(2a + b) / 2b` is `a / b` rounded half up, as `Math.round` rounds |
| Store.PercentBounds | teleprompter/src/state/store.ts:35 | the rounded percentage of a valid index is in [0, 100], and 100 at the last index |
| Store.Session.SelectFile | teleprompter/src/state/store.ts:40-51 | an unknown id changes nothing; otherwise playback stops, the file is selected, its windows are `Fragment(content, 18)` (at least one, so `TotalWindows()` is at least 1) from index 0, and a non-null, non-zero tempo of the file is adopted without clamping; the index invariant is kept |
| Store.Session.SetBpm | teleprompter/src/state/store.ts:53-55 | the tempo becomes the clamped argument and nothing else changes |
| Store.Session.TogglePlayback | teleprompter/src/state/store.ts:57-59 | the play flag is negated and nothing else changes |
| Store.Session.NextWindow | teleprompter/src/state/store.ts:61-65 | one step forward only below the last index, otherwise nothing; keeps `0 <= index <= max(0, windows - 1)` |
| Store.Session.PrevWindow | teleprompter/src/state/store.ts:67-71 | one step back only above 0, otherwise nothing; keeps the index invariant |
| Store.Session.AddFile | teleprompter/src/state/store.ts:73-75 | the file is appended; earlier files and every lookup that already succeeded are unchanged |
| Engine.IntervalMs | teleprompter/src/playback/engine.ts:10-13 | the period times the tempo is 4 * 60000 ms, one window per four-beat measure; 800 to 6000 ms for a tempo in [40, 300] |
| Engine.TicksAdvance | teleprompter/src/playback/engine.ts:21-23 | n ticks from a valid index reach `min(index + n, last)` and show exactly the windows in between, each once, in order; ticks never go back or past the last window |
| Engine.PlaybackEngine.constructor | teleprompter/src/playback/engine.ts:5 | no timer |
| Engine.PlaybackEngine.Start | teleprompter/src/playback/engine.ts:7-30 | a no-op while a timer exists; otherwise one new timer with the current tempo's period; at most one timer is ever live |
| Engine.PlaybackEngine.Stop | teleprompter/src/playback/engine.ts:32-38 | afterwards there is no timer and no live timer; with none before it changes nothing |
| Engine.PlaybackEngine.Effect | teleprompter/src/playback/engine.ts:42-47 | after stop-then-start, a timer runs exactly when playing, with the current tempo's period, and it is the only live one |
| Engine.PlaybackEngine.Tick | teleprompter/src/playback/engine.ts:17-29 | below the last window: the index goes up by one and exactly the new window is shown; at the last window or with none: the index stays, nothing is shown and playback stops |
| Engine.PlaybackEngine.OnInterval | teleprompter/src/playback/engine.ts:17-47 | a tick followed by the effect: the timer is cleared exactly when the tick reached the end |
| Throttle.OnCall | teleprompter/src/sdk/containers.ts:46-70 | a call sends at once exactly when 100 ms have passed since the last send, leaving nothing pending; otherwise nothing is sent and this request is the only one pending, due 100 ms after the last send, with a delay in (0, 100] |
| Throttle.OnFire | teleprompter/src/sdk/containers.ts:64-68 | the deferred send sends what it captured, clears the pending send and becomes the last send |
| Throttle.RunSpaced | teleprompter/src/sdk/containers.ts:44-68 | with timers that never fire early, consecutive sends are at least 100 ms apart |
| Throttle.BurstKeepsLast | teleprompter/src/sdk/containers.ts:51-69 | a burst of calls within 100 ms of the last send sends nothing and keeps only the last request pending |
| Throttle.BurstThenFire | teleprompter/src/sdk/containers.ts:62-69 | after such a burst, the timer's firing sends the last request, and only it |
| Throttle.RunAppend | teleprompter/src/sdk/containers.ts:46-70 | running two stretches of events in turn is running them together |
| Throttle.Throttler.constructor | teleprompter/src/sdk/containers.ts:42-43 | `lastUpdate` 0, nothing pending, nothing sent |
| Throttle.Throttler.UpdateTextThrottled | teleprompter/src/sdk/containers.ts:46-70 | the new state and sends are those of `OnCall`; the spacing invariant is kept |
| Throttle.Throttler.Fire | teleprompter/src/sdk/containers.ts:64-68 | the new state and send are those of `OnFire`; the spacing invariant is kept |
| Events.TapEffects | teleprompter/src/glasses/events.ts:56-70 | in playback only `togglePlayback`; otherwise `fileListSelect`, then a push of the current window exactly when it is not empty |
| Events.TextEffects | teleprompter/src/glasses/events.ts:81-107 | in playback at most one call, to a window operation, and no push; otherwise a file-list operation first; never the prompt or shutdown |
| Events.SysEffects | teleprompter/src/glasses/events.ts:110-135 | a click does what a text click does; a double tap asks the store first; only `close` subscribes the prompt; foreground changes do nothing |
| Events.Router.constructor | teleprompter/src/glasses/events.ts:18-19 | no prompt and no prompt listener |
| Events.Router.ShowClosePrompt | teleprompter/src/glasses/events.ts:21-25 | the prompt becomes active, its text is pushed, then its listener is subscribed |
| Events.Router.CleanupClosePrompt | teleprompter/src/glasses/events.ts:47-53 | the prompt becomes inactive; its listener is unsubscribed once, and a second call does nothing |
| Events.Router.HandleTap | teleprompter/src/glasses/events.ts:56-70 | what it does is `TapEffects`; in playback only the play flag changes |
| Events.Router.OnTextEvent | teleprompter/src/glasses/events.ts:81-107 | what it does is `TextEffects`; in playback a scroll moves the window as `nextWindow`/`prevWindow` do and a click toggles playback; other kinds change nothing |
| Events.Router.OnSysEvent | teleprompter/src/glasses/events.ts:110-135 | what it does is `SysEffects`; the prompt opens exactly on a double tap reported as `close`; foreground events change nothing |
| Events.Router.OnEvent | teleprompter/src/glasses/events.ts:73-137 | with the prompt active nothing happens; otherwise the text branch runs, then the system branch; during playback the system branch still sees a file selected and the window the text branch pushed is the one its scroll moved to (or the same one) |
| Events.Router.OnClosePromptEvent | teleprompter/src/glasses/events.ts:25-44 | a click or double tap closes the prompt and then shuts down; a scroll closes it and pushes the file list; anything else leaves it open |
| TabParser.AfterColon | teleprompter/src/parser/tab-parser.ts:15 | `\s*:` matches exactly when the first non-white-space character is a colon; gives what follows it |
| TabParser.LineLength | teleprompter/src/parser/tab-parser.ts:15 | how far `.+` reaches: up to the first line terminator |
| TabParser.TextCapture | teleprompter/src/parser/tab-parser.ts:15 | `\s*(.+)` captures a non-empty value that starts with a non-white-space character and holds no line terminator; it exists for every non-empty trimmed text |
| TabParser.DigitsCapture | teleprompter/src/parser/tab-parser.ts:30 | `\s*(\d+)` captures digits exactly when a digit follows the white space |
| TabParser.MatchKey | teleprompter/src/parser/tab-parser.ts:15 | one alternative matches only when the line starts with the key in either case |
| TabParser.MatchKeySpelled | teleprompter/src/parser/tab-parser.ts:15 | the other direction: the key in any case, any white space, a colon, any white space, then a value starting with a non-white-space character always matches, capturing the value up to the first line terminator (or its leading digits) |
| TabParser.MatchHeader | teleprompter/src/parser/tab-parser.ts:15-30 | a pattern fails exactly when every alternative fails |
| TabParser.Classify | teleprompter/src/parser/tab-parser.ts:14-34 | a line declares at most one field, tried as title, artist, tuning, then tempo; a text value is trimmed and never blank; the lemmas below characterise it in both directions |
| TabParser.StripExtension | teleprompter/src/parser/tab-parser.ts:7 | exactly one trailing `.txt` or `.tab`, in any case, is removed |
| TabParser.DashesToSpaces | teleprompter/src/parser/tab-parser.ts:7 | every `-` and `_` becomes a space and nothing else changes |
| TabParser.DefaultTitle | teleprompter/src/parser/tab-parser.ts:7 | the default title holds no `-` or `_` and is the file name's length, or 4 less |
| TabParser.Apply | teleprompter/src/parser/tab-parser.ts:15-34 | a header assigns its own field and leaves the other three alone |
| TabParser.HeaderLinesOf | teleprompter/src/parser/tab-parser.ts:13 | the first `min(15, n)` lines of the text |
| TabParser.ParseTabFile | teleprompter/src/parser/tab-parser.ts:4-46 | the `for` loop with its `continue` chain computes the header fold over the first 15 lines, from the defaults; the content is kept unchanged |
| TabParser.FoldAppend | teleprompter/src/parser/tab-parser.ts:13-34 | applying two runs of headers is applying them one after the other |
| TabParser.FoldLastWins | teleprompter/src/parser/tab-parser.ts:15-34 | the last header that sets a field decides its value |
| TabParser.LastHeaderWins | teleprompter/src/parser/tab-parser.ts:13-34 | a field takes the value of the last of the first 15 lines that sets it |
| TabParser.FieldDefault | teleprompter/src/parser/tab-parser.ts:7-10 | a field none of the first 15 lines sets keeps its default: the title from the file name, `Unknown`, `Standard`, no tempo |
| TabParser.LaterLinesIgnored | teleprompter/src/parser/tab-parser.ts:13 | text after the 15th line cannot change the fields |
| TabParser.TitleLine | teleprompter/src/parser/tab-parser.ts:15-19 | any line made of white space, `Title`, `Song` or `Name` in any case, white space, a colon, white space, a value and white space declares that value as the title (trimmed, cut at a line terminator) |
| TabParser.ArtistLine | teleprompter/src/parser/tab-parser.ts:20-24 | the same for `Artist`, `By` or `Band` and the artist |
| TabParser.TuningLine | teleprompter/src/parser/tab-parser.ts:25-29 | the same for `Tuning` and the tuning |
| TabParser.TempoLine | teleprompter/src/parser/tab-parser.ts:30-34 | the same shape with `BPM` or `Tempo` declares the decimal value of the digits the value starts with, or nothing when it does not start with one |
| TabParser.HeaderNeedsKey | teleprompter/src/parser/tab-parser.ts:14-34 | the converse: a line declares a field only if its trimmed text starts with one of that field's keys |
| TabParser.TempoHeader | teleprompter/src/parser/tab-parser.ts:30-34 | the tempo is the decimal value of the leading digits, whatever the key's case and the white space; text after them is ignored |
| TabParser.TempoNotNumber | teleprompter/src/parser/tab-parser.ts:30-34 | a tempo line whose value does not start with a digit declares nothing, so the tempo is left as it was |
| Json.EscapeChar | composeApp/src/webMain/kotlin/com/fzfstudio/eh/innovel/sdk/JsInteropUtils.kt:546-553 | the five special characters become a backslash pair that unescapes to them; every other character is copied |
| Json.Escape | composeApp/src/webMain/kotlin/com/fzfstudio/eh/innovel/sdk/JsInteropUtils.kt:544-555 | the escaped text holds no raw newline, carriage return or tab |
| Json.EscapeAppend | composeApp/src/webMain/kotlin/com/fzfstudio/eh/innovel/sdk/JsInteropUtils.kt:545-554 | escaping works character by character |
| Json.EscapePlain | composeApp/src/webMain/kotlin/com/fzfstudio/eh/innovel/sdk/JsInteropUtils.kt:552 | text without the five characters is copied unchanged |
| Json.EscapeJson | composeApp/src/webMain/kotlin/com/fzfstudio/eh/innovel/sdk/JsInteropUtils.kt:544-555 | the escaping loop returns exactly `Escape(value)`; `escapeJson` in App.js.kt (lines 69-82) runs the same loop with a `StringBuilder` |
| Json.ReadEscaped | composeApp/src/webMain/kotlin/com/fzfstudio/eh/innovel/sdk/JsInteropUtils.kt:311 | escaped text in quotes never closes early and unescapes to the original |
| Json.EscapeInjective | composeApp/src/webMain/kotlin/com/fzfstudio/eh/innovel/sdk/JsInteropUtils.kt:544-555 | different texts escape differently |
| Json.ReadsQuote | composeApp/src/webMain/kotlin/com/fzfstudio/eh/innovel/sdk/JsInteropUtils.kt:311 | a quoted, escaped string reads back as that string |
| Json.ReadsNull | composeApp/src/webMain/kotlin/com/fzfstudio/eh/innovel/sdk/JsInteropUtils.kt:300 | `null` reads back as null |
| Json.ReadsBool | composeApp/src/webMain/kotlin/com/fzfstudio/eh/innovel/sdk/JsInteropUtils.kt:310 | `true`/`false` read back as the Boolean |
| Json.ReadsNumber | composeApp/src/jsMain/kotlin/com/fzfstudio/eh/innovel/App.js.kt:61 | a whole number's text, with its sign, reads back as the number |
| Json.ReadsArray | composeApp/src/webMain/kotlin/com/fzfstudio/eh/innovel/sdk/JsInteropUtils.kt:290-292 | elements that read back, joined by `", "` in brackets, read back as the array of their values in order |
| Json.ReadsObject | composeApp/src/webMain/kotlin/com/fzfstudio/eh/innovel/sdk/JsInteropUtils.kt:277-281 | `"key":value` members joined by `,` in braces read back as those members, in order |
| JsInterop.Wrap | composeApp/src/webMain/kotlin/com/fzfstudio/eh/innovel/sdk/JsInteropUtils.kt:302-308 | a non-negative number is kept; a negative one becomes the unsigned number below 2^32 congruent to it modulo 2^32 |
| JsInterop.WrapSmallNegative | composeApp/src/webMain/kotlin/com/fzfstudio/eh/innovel/sdk/JsInteropUtils.kt:303-305 | a negative number of at most 32 bits is written as itself plus 2^32 (-1 as 4294967295) |
| JsInterop.Encodings | composeApp/src/webMain/kotlin/com/fzfstudio/eh/innovel/sdk/JsInteropUtils.kt:291 | every element is encoded by `jsonValue`, in order |
| JsInterop.JsonValueReads | composeApp/src/webMain/kotlin/com/fzfstudio/eh/innovel/sdk/JsInteropUtils.kt:298-316 | what `jsonValue` writes for null, a number, a Boolean, a string or a nested list reads back as that value, negatives wrapped |
| JsInterop.BuildJsonArrayReads | composeApp/src/webMain/kotlin/com/fzfstudio/eh/innovel/sdk/JsInteropUtils.kt:290-292 | `buildJsonArray` reads back as the array of its elements, in order |
| JsInterop.NonNull | composeApp/src/webMain/kotlin/com/fzfstudio/eh/innovel/sdk/JsInteropUtils.kt:275 | the kept fields are no more than the given ones and none is null |
| JsInterop.NonNullAppend | composeApp/src/webMain/kotlin/com/fzfstudio/eh/innovel/sdk/JsInteropUtils.kt:273-279 | dropping nulls keeps the input order |
| JsInterop.NonNullOne | composeApp/src/webMain/kotlin/com/fzfstudio/eh/innovel/sdk/JsInteropUtils.kt:275 | one field is kept exactly when its value is not null |
| JsInterop.NonNullEmpty | composeApp/src/webMain/kotlin/com/fzfstudio/eh/innovel/sdk/JsInteropUtils.kt:275 | nothing is kept exactly when every value is null |
| JsInterop.BuildJsonObjectInternal | composeApp/src/webMain/kotlin/com/fzfstudio/eh/innovel/sdk/JsInteropUtils.kt:271-283 | the loop's parts, joined by `,` in braces, are the object text of the non-null fields |
| JsInterop.ObjectJsonReads | composeApp/src/webMain/kotlin/com/fzfstudio/eh/innovel/sdk/JsInteropUtils.kt:271-283 | the object reads back as exactly the non-null fields, in input order, each with its value |
| JsInterop.ObjectJsonEmpty | composeApp/src/webMain/kotlin/com/fzfstudio/eh/innovel/sdk/JsInteropUtils.kt:280-282 | the object is `{}` exactly when every value is null |
| AppJs.Pairs | composeApp/src/jsMain/kotlin/com/fzfstudio/eh/innovel/App.js.kt:53-55 | every field, null ones included, keeps its key and gets `jsonValue` of its value, in order |
| AppJs.FormatJsObject | composeApp/src/jsMain/kotlin/com/fzfstudio/eh/innovel/App.js.kt:11-12 | null is formatted as `"null"` |
| AppJs.ScalarReads | composeApp/src/jsMain/kotlin/com/fzfstudio/eh/innovel/App.js.kt:59-62 | null, a signed number, a Boolean or a quoted string reads back as that value |
| AppJs.JsonObjectReads | composeApp/src/jsMain/kotlin/com/fzfstudio/eh/innovel/App.js.kt:52-57 | `jsonObject` reads back as an object with every field, null ones as null, in order |
| AppJs.MembersMatch | composeApp/src/jsMain/kotlin/com/fzfstudio/eh/innovel/App.js.kt:24-43 | the keys each record lists, paired with their values, are the record's expected members |
| AppJs.UserFieldsRead | composeApp/src/jsMain/kotlin/com/fzfstudio/eh/innovel/App.js.kt:25-30 | each user field's text reads back as its value |
| AppJs.DeviceFieldsRead | composeApp/src/jsMain/kotlin/com/fzfstudio/eh/innovel/App.js.kt:31-35 | the device's model and serial read back; its status reads back as the nested status object, embedded raw, or null |
| AppJs.StatusFieldsRead | composeApp/src/jsMain/kotlin/com/fzfstudio/eh/innovel/App.js.kt:36-43 | each status field's text reads back as its value |
| AppJs.FormatKnownModelReads | composeApp/src/jsMain/kotlin/com/fzfstudio/eh/innovel/App.js.kt:22-57 | a record's layout reads back as an object with its fields in order, the status nested |
| AppJs.FormatJsObjectReads | composeApp/src/jsMain/kotlin/com/fzfstudio/eh/innovel/App.js.kt:11-20 | `formatJsObject` reads back as null or as the record's object |
| Books.NewChapter | composeApp/src/webMain/kotlin/com/fzfstudio/eh/innovel/models/BookModel.kt:30-44 | a new chapter has the given fields and is not yet read |
| Books.NewBook | composeApp/src/webMain/kotlin/com/fzfstudio/eh/innovel/models/BookModel.kt:6-24 | a new book has the given fields, no chapters unless given, and none read |
| Books.TotalChapters | composeApp/src/webMain/kotlin/com/fzfstudio/eh/innovel/models/BookModel.kt:20-21 | the number of chapters |
| Books.TotalChaptersGrow | composeApp/src/webMain/kotlin/com/fzfstudio/eh/innovel/models/BookModel.kt:16-21 | a book made with the default empty chapter list counts none, and each added chapter counts one |
| Books.Preview | composeApp/src/webMain/kotlin/com/fzfstudio/eh/innovel/models/BookModel.kt:42 | content of at most 25 characters is shown whole; longer content is its first 25 characters and `...`, 28 in all |
| Books.DisplayContent | composeApp/src/webMain/kotlin/com/fzfstudio/eh/innovel/models/BookModel.kt:41-42 | the chapter's preview is never longer than 28 characters |
| Books.PreviewIdempotent | composeApp/src/webMain/kotlin/com/fzfstudio/eh/innovel/models/BookModel.kt:42 | a preview is its own preview |
| Books.PreviewSameStart | composeApp/src/webMain/kotlin/com/fzfstudio/eh/innovel/models/BookModel.kt:42 | two long texts have the same preview exactly when their first 25 characters agree |

## Left out

- `fragmentTabContent`'s `lines.length === 0` branch (teleprompter/src/glasses/fragmenter.ts:16) cannot be taken, because `split` never returns an empty array (`Text.Split`). The model leaves it out.
- Fragmenter: a `linesPerWindow` below 1 makes the source loop forever. The model requires at least 1; the default is 18.
- `Math.floor(linesPerWindow * 0.6)` is written `(3 * L) / 5`. The two agree for every `L` below 2^52. From there on the product rounds and they can differ by one, but a break is searched for only when the text has more than `L` lines, which no text of that size could have.
- Store.Session.Progress: `Math.round` on a floating-point quotient is modelled by exact integer rounding half up. The floating-point rounding error of the quotient is not modelled.
- Engine.IntervalMs: the period is an exact real number, not a double.
- Real timers and the clock: `setInterval`, `setTimeout`, `clearTimeout` and `Date.now` are abstract timer handles and explicit `now` parameters. A timer's firing is a separate call (`Tick`, `OnInterval`, `Throttler.Fire`), and timers are assumed never to fire early.
- The signal reactivity is modelled as explicit calls. `OnInterval` runs the effect after a tick, and the router calls the store methods directly.
- The `isBridgeReady` signal (teleprompter/src/state/store.ts:13) is not read by any modelled operation.
- The device bridge, `updateText`, `shutdown` and the glasses display are abstract actions recorded in ghost logs. The SDK calls are not part of this model.
- `handleDoubleTap`, `fileListNext`, `fileListPrev`, `fileListSelect` and `renderFileListForGlasses` are imported from a store that does not define them. They are not part of this model. Each may change any field of the session, `handleDoubleTap` returns any of its three results, and the rendered list is the symbolic `FileList`.
- Events: the listener subscription of the SDK is modelled by handles. The order in which the SDK calls several subscribed listeners is not modelled.
- Logging (`console.log`) is left out everywhere.
- TabParser.ParseTabFile: the file's `id` (random) and `createdAt` (clock) are parameters.
- `parseInt` on digit strings beyond 2^53 loses precision in the source; the model reads them exactly.
- TabParser: the header patterns are prefix matchers. Backtracking of `\s*(.+)` into white space is not modelled. It is never needed, because the line is trimmed first, which `TabParser.TextCapture` states.
- TabParser: a tempo of 0 is parsed as 0. `selectFile` then ignores it (`Store.Session.SelectFile`). A value like `NaN` cannot arise because the pattern demands digits.
- Store.Session.SelectFile: a file's tempo is adopted without clamping, as the source does, so the session's tempo may lie outside [40, 300] afterwards. `Valid()` therefore only promises a non-zero tempo.
- JsInterop: numbers are whole numbers within Kotlin's `Long`. `toLong()` of non-integral doubles and Kotlin/JS double formatting are left out.
- JsInterop.Wrap: `asLong and 0xFFFFFFFF` is stated through the Euclidean remainder modulo 2^32. The two agree for every negative `Long`.
- JsInterop: the `JsAny`, container-property and fallback branches of `jsonValue` (JsInteropUtils.kt:319-512), the vararg `buildJsonObject` (214-266), `tryConvertToArray`, the fetch helpers and the reflection helpers depend on the JavaScript runtime or on classes not shown. They are not part of this model.
- AppJs: `UserInfo`, `DeviceInfo` and `DeviceStatus` are not part of this model. Their fields are taken as scalars (null, number, Boolean or string), and `model` and `connectType` as the text their `toString()` gives.
- AppJs.FormatJsObject: the `try`/`catch` fallback to `toString()` (App.js.kt:14-19), objects other than the three records (44-48) and the `toString()` fallback of `jsonValue` (64) are left out. The formatter is modelled on null and the three records only.
- Json.Escape: both `escapeJson` functions leave control characters other than newline, carriage return and tab as they are. The model does the same, so its claim is about those five characters only.
- Json.ReadString: takes the characters U+0000 to U+001F raw inside a string, although section 7 of RFC 8259 requires them escaped. It has to, to be the partner of writers that leave them raw. So the round trips are proved against this lenient reader, and text holding such a character is not shown to be valid JSON for a strict parser.
- Books: Kotlin measures `content.length` and `take(25)` in UTF-16 code units; the model counts Unicode scalar values. They differ only for characters outside the Basic Multilingual Plane.
- Books: `readChapters` and `hadRead` are `var` fields that BookModel.kt never updates. The records are values, with those fields at their initial values.
