# Icon demo: the dictation form and the launcher, in Dafny

This project models the two pages that hold the logic of the icon demo. Each model comes with proofs about it.

**The item-creation page** (`src/app/items/create/page.tsx`) fills a five-field defect form by voice. A speech recogniser delivers batches of results. The `recog.onresult` handler feeds every final chunk to `handleSpeechChunk`, which handles, in this order:

- the control words: stop, save, export, cancel;
- the per-field mode, which writes each chunk into its field;
- the global grammar: "enter text for <field>", "clear <field>", "<field> is <value>" / "set <field> to <value>";
- free speech, which is appended to the active field.

`toISODate` turns spoken dates into `YYYY-MM-DD` text.

**The launcher page** (`src/app/page.tsx`) has:

- a fixed table of eight defect actions;
- a search box and a prefix filter that select which actions are shown;
- a Guide tab that shows the same tiles pointing at `/guide/<id>`;
- tiles that navigate to their `href`, or open a dialog when they have none.

The modules:

- `Wrappers`: `Option`.
- `Text`: the ECMAScript string operations the pages use:
  - `trim`, with the ECMAScript white-space and line-terminator set;
  - `toLowerCase`, character by character;
  - `includes`, `startsWith`;
  - case-insensitive literal matching as a `/i` regular expression does it (ASCII only).
- `Calendar`: the parts of `Date` that `toISODate` reaches:
  - day numbers to and from civil dates (proleptic Gregorian);
  - `Date.UTC` with its two-digit-year rule and month roll-over;
  - the first ten characters of `toISOString`, including its six-digit signed years.
- `IsoDate`: `toISODate`.
- `ItemForm`: `FieldKey` and the form record.
- `Grammar`:
  - `fieldFromSpoken` and `cleanTail`;
  - the control words;
  - the three command regular expressions, each written out as the first match JavaScript's backtracking matcher returns.
- `Interpreter`: the page state and every handler as a pure function from the old state to the new one. It also holds the loop of `recog.onresult` as a fold over the final chunks, and the properties of all of these.
- `Dictation`: the page as a class.
  - Its fields are the React state, plus the session the recogniser's handler closes over.
  - Each handler is a method that updates the fields in place.
  - The result handler is a `while` loop over the results.
  - Each method is proved to leave the page in the state the matching `Interpreter` function gives, and to keep the inspection date empty, or ten characters shaped like the output of `toISODate` (`YYYY-MM-DD`, or starting with `+` or `-`).
- `Launcher`: `ACTIONS`, the `filtered` list, the Guide tiles and a tile's click.

Inputs from the host are parameters:

- the current day and what `new Date(value)` parses, the two fields of `IsoDate.Env`;
- whether the browser has a recogniser, the `supported` parameter of `Interpreter.StartRecognizer` and `Dictation.CreateItemPage.StartRecognizer`.

Behaviour that follows the code rather than the page's own comments (`create/page.tsx:209` and `:238`) and its voice tips (`create/page.tsx:434`):

- Control words are matched before the per-field branch (`create/page.tsx:197-206`). So "stop" ends a per-field session rather than being written into the field.
- The `recog.onresult` handler reads the active field of the render that started the session, so the words after "enter text for name" are dropped (see Findings).
- The connector of the set pattern has no word boundary, so in `name Tom` the connector is the `To` of `Tom`. This is modelled as written.

## Model

| member | source | states |
|---|---|---|
| Text.Trim | src/app/items/create/page.tsx:194 | `trim` leaves no white space at either end and never lengthens the text |
| Text.TrimMargins | src/app/items/create/page.tsx:22 | the trimmed text is a contiguous piece of the input, with only white space cut before and after it |
| Text.TrimTrimmed | src/app/items/create/page.tsx:194 | trimming trimmed text changes nothing, so trimming again a chunk the result loop already trimmed is harmless |
| Text.ToLower | src/app/page.tsx:80 | `toLowerCase` keeps the length and lowers each character on its own (A-Z, and KELVIN SIGN to `k`) |
| Text.LowerKeeps | src/app/items/create/page.tsx:22 | text without upper-case letters (A-Z, KELVIN SIGN) is its own lower case |
| Text.Contains | src/app/page.tsx:80 | `includes` holds only for a part no longer than the text, and always for a prefix of it, the empty string included |
| Text.StartsWith | src/app/page.tsx:79 | `startsWith` holds exactly when the first characters of the text are those of the prefix, one by one; a text includes what it starts with |
| Text.ContainsPart | src/app/items/create/page.tsx:48-52 | whatever `includes` `pre + sub` `includes` `sub`, so a word holding `inspection date` holds `date` |
| Calendar.DaysInMonth | src/app/items/create/page.tsx:30 | every month of the proleptic Gregorian calendar has 28 to 31 days |
| Calendar.LeapYearPeriodic | src/app/items/create/page.tsx:30 | the leap-year rule repeats every 400 years |
| Calendar.CivilFromDays | src/app/items/create/page.tsx:23-24 | every day number names a valid civil date that maps back to the same day number |
| Calendar.CivilRoundTrip | src/app/items/create/page.tsx:30 | a valid civil date taken to its day number and back is the same date |
| Calendar.FullYear | src/app/items/create/page.tsx:30 | `Date.UTC` reads years 0..99 as 1900..1999 and keeps every other year |
| Calendar.DateUtc | src/app/items/create/page.tsx:30 | `Date.UTC(y, m, d)` with a month index 0..11 is day `d` of month `m + 1` of the full year; index -1 is December of the year before, 12 January of the year after |
| Calendar.Digits | src/app/items/create/page.tsx:40-41 | the decimal digits of `n`: they read back as `n`, have no leading zero, and are as many as the size of `n` calls for |
| Calendar.LeadingZeros | src/app/items/create/page.tsx:40-41 | zeros put in front of digits do not change the number they read as |
| Calendar.ZeroPad | src/app/items/create/page.tsx:40-41 | the padded text reads back as `n`, has at least `width` digits, and exactly `width` when `n` fits |
| Calendar.YearText | src/app/items/create/page.tsx:40-41 | `toISOString` writes the year 0..9999 as four zero-padded digits; any other year as `+` or `-` and digits that read back as its magnitude, six of them below one million |
| Calendar.IsoDayText | src/app/items/create/page.tsx:23-41 | `toISOString().slice(0, 10)` is ten characters; for years 0..9999 it is `YYYY-MM-DD` of that day's civil date, for other years below one million it is the signed year of `YearText`, `-` and the two-digit month, and it starts with `+` above 9999 and `-` below 0 |
| Calendar.IsoDayTextOfDate | src/app/items/create/page.tsx:30 | an existing date of years 0..9999 comes out as that date, zero-padded |
| Calendar.FullYearOfFourDigits | src/app/items/create/page.tsx:27-30 | a four-digit year never reaches `Date.UTC` below 100 |
| Calendar.IsoTextMonthZero | src/app/items/create/page.tsx:29-30 | month number 0 (month index -1) gives day `D` of December of the year before; with `IsoDate.MdyDate` this is what `0/D/YYYY` becomes |
| Calendar.IsoTextMonthThirteen | src/app/items/create/page.tsx:29-30 | month number 13 (month index 12) gives day `D` of January of the year after; with `IsoDate.MdyDate` this is what `13/D/YYYY` becomes |
| IsoDate.DecimalValue | src/app/items/create/page.tsx:29 | `+group` of one, two or four digits is below 10, 100 or 10000 |
| IsoDate.MatchMdy | src/app/items/create/page.tsx:27 | `^(\d{1,2})\/(\d{1,2})\/(\d{4})$` matches exactly when one of the four digit splits fits; the groups joined with slashes are the input |
| IsoDate.ToISODate | src/app/items/create/page.tsx:21-44 | the result is "" or ten characters in ISO shape (or signed); ISO-shaped input comes back unchanged; `today`/`tomorrow` (any case, any margins) give the host's day and the next; "" only when the text is not ISO-shaped and the host cannot parse it |
| IsoDate.ToISODateEmpty | src/app/items/create/page.tsx:21-44 | `toISODate` gives `""` exactly when the text is no date word, no `M/D/YYYY`, not ISO-shaped, and the host cannot parse it |
| IsoDate.HostDayText | src/app/items/create/page.tsx:37-43 | `""` exactly when the host cannot parse the text; otherwise ten characters in ISO shape or signed |
| IsoDate.ToISODateOfMdy | src/app/items/create/page.tsx:27-31 | text that is no date word and matches `M/D/YYYY` after trimming and lower-casing becomes the `Date.UTC` day of its groups |
| IsoDate.ToISODateOfParsed | src/app/items/create/page.tsx:37-41 | text that is no date word, no `M/D/YYYY` and not ISO-shaped becomes the UTC day of the year, month and day the host parser gives |
| IsoDate.IsoShapeIsNoCommand | src/app/items/create/page.tsx:22-34 | ISO-shaped text is neither `today`, `tomorrow` nor `M/D/YYYY`, so it reaches the pass-through at line 34 |
| IsoDate.MatchMdyOf | src/app/items/create/page.tsx:27 | digit groups joined with slashes match with exactly those groups |
| IsoDate.MdyDate | src/app/items/create/page.tsx:27-31 | `M/D/YYYY` text becomes `Date.UTC(YYYY, M - 1, D)` |
| IsoDate.MdyExistingDate | src/app/items/create/page.tsx:27-31 | `M/D/YYYY` naming an existing date gives that date zero-padded, with years 00..99 read as 1900..1999 |
| IsoDate.NormalizeTwice | src/app/items/create/page.tsx:249-253 | normalising an ISO-shaped result again changes nothing, so the second `toISODate` that `applyToField` applies to a date the set command already normalised is harmless |
| ItemForm.Form.Set | src/app/items/create/page.tsx:253-267 | `{ ...prev, [f]: v }` gives `f` the value `v` and keeps every other field |
| ItemForm.FormExtensionality | src/app/items/create/page.tsx:13-19 | two forms that agree on all five fields are equal |
| Grammar.MentionsNothing | src/app/items/create/page.tsx:48-53 | a word holding none of the five keywords mentions no field |
| Grammar.InspectionDateMentionsDate | src/app/items/create/page.tsx:52 | the `inspection date` and `=== "date"` tests imply `includes("date")` |
| Grammar.FieldFromSpoken | src/app/items/create/page.tsx:46-54 | the field whose keyword the lower-cased word holds, the earliest in test order when several do; undefined exactly when none does |
| Grammar.CleanTail | src/app/items/create/page.tsx:56-58 | the result is trimmed and is a piece of the input |
| Grammar.CleanTailPlainValue | src/app/items/create/page.tsx:57 | text whose first word after its leading white space is no connector is only trimmed |
| Grammar.CleanTailDropsConnector | src/app/items/create/page.tsx:57 | any white space, then one of `is`/`to`/`as`/`=`/`:` in any case, then any white space are removed, and the rest is trimmed |
| Grammar.ControlWord | src/app/items/create/page.tsx:197-200 | each of stop, save, export and cancel is reported exactly when the text is one of its phrases under `/i`; nothing is reported exactly when the text is none of them |
| Grammar.ControlWordIgnoresCase | src/app/items/create/page.tsx:197-200 | texts that differ only in letter case get the same control word |
| Grammar.ControlPhrasesDiffer | src/app/items/create/page.tsx:197-200 | no text is two different control phrases, so the order of the four tests does not matter |
| Grammar.RestOfLine | src/app/items/create/page.tsx:210-225 | the `(.+)$` that ends the three command patterns matches exactly a non-empty rest without a line terminator |
| Grammar.MatchFocus | src/app/items/create/page.tsx:210 | a match starts with one of the focus verbs, and its group 2 is a non-empty tail of the chunk |
| Grammar.MatchFocusOf | src/app/items/create/page.tsx:210 | a focus verb in any case, white space and a trimmed one-line rest that does not start with `text` match with that rest as group 2 |
| Grammar.MatchFocusTextFor | src/app/items/create/page.tsx:210 | a focus verb in any case, white space, `text for ` and a trimmed one-line rest match with that rest as group 2 |
| Grammar.NoFocusVerb | src/app/items/create/page.tsx:210 | a chunk whose first letter starts no focus verb does not match |
| Grammar.MatchClear | src/app/items/create/page.tsx:217 | a match starts with `clear`, and its group is a non-empty tail after it |
| Grammar.MatchClearOf | src/app/items/create/page.tsx:217 | `clear` in any case, white space and a trimmed one-line rest match with that rest as the group |
| Grammar.SetValue | src/app/items/create/page.tsx:225 | the value group of the set pattern is a non-empty tail of the chunk |
| Grammar.FieldWordPatternsWellFormed | src/app/items/create/page.tsx:225 | every alternative of the field-word group holds a field keyword |
| Grammar.PatternWordIsSpoken | src/app/items/create/page.tsx:225-227 | every field word the set pattern matches is one `fieldFromSpoken` resolves, so the `!` at line 227 is safe |
| Grammar.MatchSet | src/app/items/create/page.tsx:224-227 | a match's value is a tail of the chunk, and its field word resolves to a field |
| Grammar.MatchSetOf | src/app/items/create/page.tsx:225 | a field word in any case, white space, `is`/`to`/`:` in any case, white space and a trimmed one-line value match with that word and that value |
| Grammar.FieldWordsBeginWithLetter | src/app/items/create/page.tsx:225 | every field word of the set pattern is at least two letters long and starts with a lower-case letter other than `s` |
| Grammar.EarlierPatternsFailAt | src/app/items/create/page.tsx:225 | a field word spelled at any index stops every field-word alternative tried before its own, and its own ends after the word |
| Grammar.SetWithWordAt | src/app/items/create/page.tsx:225 | a field word at any index, followed by no `s` and then by a well-formed value, gives that word and that value |
| Grammar.MatchSetAfterPrefix | src/app/items/create/page.tsx:225 | after `set` and white space, the set pattern matches what the field-word group matches there |
| Grammar.SetPrefixRun | src/app/items/create/page.tsx:225 | `set` in any case and white space: the `\s+` of `(?:set\s+)?` takes exactly that white space |
| Grammar.SetWithAfterHead | src/app/items/create/page.tsx:225 | a field word, white space, a connector, white space and a value after any head give that word and that value |
| Grammar.MatchSetPrefixedOf | src/app/items/create/page.tsx:225 | `set`, white space, a field word, white space, a connector, white space and a trimmed one-line value, all in any case, match with that word and value |
| Grammar.SetLayoutPlainValue | src/app/items/create/page.tsx:225 | with no connector, the value after a field word and white space is the rest of the chunk |
| Grammar.MatchSetPlainOf | src/app/items/create/page.tsx:225 | a field word, white space and a trimmed one-line value with no connector in front match with that word and that value |
| Grammar.InspectionDateEarlierFail | src/app/items/create/page.tsx:225 | `inspection` stops the five alternatives tried before `inspection\s+date`, `inspector` included |
| Grammar.InspectionDateWordEnd | src/app/items/create/page.tsx:225 | `inspection`, white space and `date`, in any case, make the two-word field word, ending after `date` |
| Grammar.MatchSetInspectionDate | src/app/items/create/page.tsx:225 | where the two-word field word ends before a well-formed value, the match is that word and that value |
| Grammar.MatchSetInspectionDatePlainOf | src/app/items/create/page.tsx:225 | `inspection date` with any white space and case, white space and a value with no connector match with the two-word field word and that value |
| Grammar.MatchSetInspectionDateOf | src/app/items/create/page.tsx:225 | `inspection date`, white space, a connector, white space and a value match with the two-word field word and that value |
| Grammar.SetNotesTo | src/app/items/create/page.tsx:434 | the voice tip `set notes to <text>` matches with the field word `notes` and the text as value |
| Grammar.InspectionDateTip | src/app/items/create/page.tsx:434 | the voice tip `inspection date August 20 2025` matches with the two-word field word and the date as value |
| Grammar.NoSetWord | src/app/items/create/page.tsx:225 | a chunk whose first letter starts neither `set` nor a field word does not match |
| Grammar.NameTomSetsM | src/app/items/create/page.tsx:225 | `name Tom` matches with the connector `To` taken from `Tom`, leaving the value `m` |
| Interpreter.StopDictation | src/app/items/create/page.tsx:139-144 | the page stops listening, with no mode and no active field; the form and the transcript stay |
| Interpreter.StopDictationIdempotent | src/app/items/create/page.tsx:187-188 | stopping a second time (from `onend`) changes nothing more |
| Interpreter.AppliedValue | src/app/items/create/page.tsx:249-256 | the inspection date gets `toISODate` of the value, or `""` for an empty value, and is well formed; a clear empties any other field; any other field takes the value as it is |
| Interpreter.ApplyToField | src/app/items/create/page.tsx:249-258 | field `f` takes the applied value, no other field changes, `f` becomes active, and listening, mode and transcript stay |
| Interpreter.AppendedValue | src/app/items/create/page.tsx:260-269 | a text field gains the extra text after one space (none when it was empty); the date is replaced only by a date that normalises |
| Interpreter.AppendToField | src/app/items/create/page.tsx:260-269 | only field `f` changes, to `AppendedValue` of its old value; the active field, listening, mode and transcript stay; a well-formed date stays well formed |
| Interpreter.HandleSpeechChunk | src/app/items/create/page.tsx:193-247 | reports the control word of the trimmed chunk, and a control word leaves the form alone; stop is `stopDictation`; only stop changes listening and mode; at most one field changes; a well-formed inspection date stays well formed |
| Interpreter.StepChangesOneField | src/app/items/create/page.tsx:202-246 | every branch without a control word writes at most one field and keeps the date well formed |
| Interpreter.ContentChangesOneField | src/app/items/create/page.tsx:239-246 | free speech changes only the active field and keeps the date well formed |
| Interpreter.SetChangesOneField | src/app/items/create/page.tsx:224-236 | the set command changes only the named field and keeps the date well formed |
| Interpreter.ControlWordKeepsForm | src/app/items/create/page.tsx:197-200 | a control word changes no field, and save, export and cancel change no state at all |
| Interpreter.PerFieldReplaces | src/app/items/create/page.tsx:202-206 | in a per-field session each chunk replaces its field (normalised for the date) and never appends |
| Interpreter.FocusMovesActiveField | src/app/items/create/page.tsx:210-214 | "enter text for <field>" moves the active field and changes nothing else |
| Interpreter.ClearEmptiesField | src/app/items/create/page.tsx:217-221 | "clear <field>" empties that field, the date included, and makes it active |
| Interpreter.SetAssignsField | src/app/items/create/page.tsx:224-236 | the set command gives a text field the cleaned value; a date that does not normalise changes nothing; one that does is stored through `applyToField` (ISO-shaped as it is, signed years included), and the date field becomes active |
| Interpreter.PlainSpeechAppends | src/app/items/create/page.tsx:239-245 | plain speech is appended, after one space, to the text field the handler sees as active |
| Interpreter.PlainSpeechSetsDate | src/app/items/create/page.tsx:238-245 | plain speech read with the inspection date active replaces the date with its normalised value, or changes nothing when it does not normalise |
| Interpreter.PlainSpeechWithoutFieldIgnored | src/app/items/create/page.tsx:239 | plain speech with no active field in view changes nothing |
| Interpreter.SetCommand | src/app/items/create/page.tsx:224-236 | a set match gives its text field the cleaned value and makes it active; for the date, a value that normalises is applied and one that does not changes nothing |
| Interpreter.Content | src/app/items/create/page.tsx:238-246 | free speech for a text field is appended after one space (none to an empty field), keeping the active field; for the date, a normalising value replaces it and makes it active, and any other changes nothing |
| Interpreter.GlobalCommand | src/app/items/create/page.tsx:208-246 | focus moves only the active field; clear empties its field alone and makes it active; set changes only the named field; free speech changes only the field in view; with none in view nothing changes |
| Interpreter.StartRecognizer | src/app/items/create/page.tsx:154-171 | without a recogniser nothing changes; otherwise the transcript is cleared, mode and active field are set, the page listens, and the session captures the active field of that moment |
| Interpreter.Finals | src/app/items/create/page.tsx:175-179 | a batch has no more final chunks than results |
| Interpreter.Run | src/app/items/create/page.tsx:175-183 | a batch reports at most one control word per chunk |
| Interpreter.RunSnoc | src/app/items/create/page.tsx:175-183 | one more final chunk is one more handler call, on the state the earlier chunks left |
| Interpreter.RunTwo | src/app/items/create/page.tsx:175-183 | two final chunks are two handler calls in order |
| Interpreter.RunKeeps | src/app/items/create/page.tsx:175-184 | a batch reports the control words of its chunks in order, and keeps the transcript and a well-formed date |
| Interpreter.StepsWellBehaved | src/app/items/create/page.tsx:179 | the handler reports its chunk's control word, keeps the transcript and keeps the date well formed, whichever active field it reads |
| Interpreter.Dispatch | src/app/items/create/page.tsx:175-183 | the final chunks handled in order, each reading the latest active field, report the control words of the chunks, keep the transcript and keep the date well formed |
| Interpreter.DispatchAsWritten | src/app/items/create/page.tsx:173-185 | the same loop with every call reading, at line 239, the active field captured at session start, with the same guarantees |
| Interpreter.DispatchSnoc | src/app/items/create/page.tsx:175-183 | one more final chunk is one more handler call on the state the batch left |
| Interpreter.FinalsSnoc | src/app/items/create/page.tsx:176-182 | a final result adds its transcript to the chunks and `chunk + " "` to the final text; an interim one adds to the interim text only |
| Interpreter.OnResult | src/app/items/create/page.tsx:173-185 | the corrected handler: the page is that of `Dispatch` over the batch's final chunks, each reading the latest active field; the session's final text grows by those chunks; the transcript is `(finalText + " " + interim).trim()`; the control words come in order; the date stays well formed |
| Interpreter.OnResultAsWritten | src/app/items/create/page.tsx:173-185 | the handler as written: the same, with every chunk reading the active field captured when the session started (`DispatchAsWritten`) |
| Interpreter.FocusFirst | src/app/items/create/page.tsx:210-214 | a focus chunk moves only the active field, whichever active field the handler reads |
| Interpreter.PlainIgnored | src/app/items/create/page.tsx:239 | plain words read with no active field change nothing |
| Interpreter.PlainAppends | src/app/items/create/page.tsx:239-245 | plain words read with active field `f` are appended to `f` |
| Interpreter.StaleFocusDropsContent | src/app/items/create/page.tsx:173-185 | as written, "enter text for <field>" followed by plain words in one session started with no active field leaves the form unchanged |
| Interpreter.FocusThenContentAppends | src/app/items/create/page.tsx:209-245 | read from the latest state, the words after "enter text for <field>" are appended to that field |
| Interpreter.EnterTextForName | src/app/items/create/page.tsx:209-214 | "enter text for name" is a global chunk whose focus command names the Name field |
| Interpreter.JohnIsPlain | src/app/items/create/page.tsx:238-245 | "John" is no control word and no command, so it is plain speech |
| Interpreter.EnterTextForNameThenJohnAsWritten | src/app/items/create/page.tsx:173-185 | as written, "enter text for name" then "John" in a global session started with no active field leaves the form unchanged |
| Interpreter.EnterTextForNameThenJohn | src/app/items/create/page.tsx:209-245 | read from the latest state, "enter text for name" then "John" appends "John" to the Name field |
| Dictation.CreateItemPage.constructor | src/app/items/create/page.tsx:71-75 | the page starts with the empty form, no active field, not listening, no mode, no transcript and no recogniser |
| Dictation.CreateItemPage.StopDictation | src/app/items/create/page.tsx:139-144 | the fields become `Interpreter.StopDictation` of the old page, and the session is kept |
| Dictation.CreateItemPage.ApplyToField | src/app/items/create/page.tsx:249-258 | the fields become `Interpreter.ApplyToField` of the old page |
| Dictation.CreateItemPage.AppendToField | src/app/items/create/page.tsx:260-269 | the fields become `Interpreter.AppendToField` of the old page |
| Dictation.CreateItemPage.HandleSpeechChunk | src/app/items/create/page.tsx:193-247 | the fields and the reported control word are those of `Interpreter.HandleSpeechChunk` with the page's current active field |
| Dictation.CreateItemPage.GlobalCommand | src/app/items/create/page.tsx:208-246 | the focus, clear and set commands and free speech change the fields as `Interpreter.GlobalCommand` does with the page's current active field, and the session is kept |
| Dictation.CreateItemPage.StartRecognizer | src/app/items/create/page.tsx:154-171 | the fields and the new session are those of `Interpreter.StartRecognizer`; without a recogniser the session stays |
| Dictation.CreateItemPage.StartFieldDictation | src/app/items/create/page.tsx:146-148 | a per-field session for that field starts |
| Dictation.CreateItemPage.StartGlobalDictation | src/app/items/create/page.tsx:150-152 | a global session with no field starts |
| Dictation.CreateItemPage.HandleFinalChunk | src/app/items/create/page.tsx:179 | one final chunk, trimmed, changes the page as one handler step does and keeps the session |
| Dictation.CreateItemPage.HandleResults | src/app/items/create/page.tsx:174-183 | after the loop, the page is the fold of the handler over the final chunks; the final text has grown by `chunk + " "` per final chunk; the interim text joins the others; the session is kept |
| Dictation.CreateItemPage.OnResult | src/app/items/create/page.tsx:173-185 | the page, the session and the control words are those of `Interpreter.OnResult` for the session's own mode and field |
| Launcher.ActionsTable | src/app/page.tsx:33-42 | `ACTIONS` holds eight actions with distinct ids; the first links to the create page with code, name and severity filled in, the other seven to the bare create page |
| Launcher.Kept | src/app/page.tsx:79-80 | an action kept under a filter other than `all` has an id starting with it; under a non-blank query its label is at least as long as the query; filter `all` with a blank query keeps everything |
| Launcher.Filtered | src/app/page.tsx:77-81 | an action is listed exactly when it is in `ACTIONS` and passes the id filter and the label search; the list is no longer than `ACTIONS` |
| Launcher.SubsequenceDrop | src/app/page.tsx:77 | dropping the first entry of a subsequence leaves a subsequence |
| Launcher.SubsequenceCons | src/app/page.tsx:77 | a subsequence of a list stays one when an entry is put in front |
| Launcher.FilteredIsSubsequence | src/app/page.tsx:77-81 | the listed actions keep the order of `ACTIONS` |
| Launcher.FilteredIdempotent | src/app/page.tsx:77-81 | filtering the filtered list again with the same filter and query changes nothing |
| Launcher.FilteredAllKept | src/app/page.tsx:77-81 | a list whose every entry passes comes through whole |
| Launcher.BlankQuery | src/app/page.tsx:80 | a query of white space only counts as empty |
| Launcher.AllWithBlankQuery | src/app/page.tsx:77-81 | with the filter `all` (the initial one) and a blank query, all eight actions are listed in their order |
| Launcher.PrefixOptions | src/app/page.tsx:100-102 | with a blank query, the menu's filter `s` lists exactly Sink and Scratch, and `d` exactly Damage |
| Launcher.FilterIsIdPrefix | src/app/page.tsx:79 | any filter other than `all` lists only actions whose id starts with it |
| Launcher.QueryMatchesLabel | src/app/page.tsx:80 | a non-blank query lists an action exactly when its lower-cased label includes the lower-cased query, untrimmed |
| Launcher.GuideTiles | src/app/page.tsx:142-143 | the Guide tab has one tile per listed action, with the same id, label, image and blurb, and an `href` of `/guide/` followed by the id |
| Launcher.TileClick | src/app/page.tsx:47 | a tile with an `href` navigates to it; one without opens the dialog for its action |
| Launcher.GuideTileNavigates | src/app/page.tsx:143 | a click on any Guide tile navigates to `/guide/<id>` and never opens the dialog |
| Launcher.ActionsNavigate | src/app/page.tsx:33-47 | every action of `ACTIONS` has an `href`, so the main grid navigates and never opens the dialog |

## Left out

- The JSX rendering, the dialog's contents, the tabs' layout and the motion effects: presentation only.
- `update` and the date input's `onChange` (which stores the browser's value as it is): they are form bindings outside the dictation logic.
- The effects of the save, export and cancel control words: the model reports which control word was obeyed and changes no state.
  - `fakeClickSave` and `submit` post to `/api/items`, a network round trip.
  - `exportToExcel` writes a workbook through the `xlsx` library. It also reads the form of the render that created the handler.
  - `router.back` navigates.
- The `recogRef` reference and the recogniser's `start`/`stop` calls, `onerror`, `onend` and `alert`: browser I/O.
  - `onerror` and `onend` both call `stopDictation`; `Interpreter.StopDictationIdempotent` covers that second call.
- A recogniser left running when a new one starts: the model keeps one session at a time.
- The host inputs are parameters of `IsoDate.Env`:
  - the clock (`new Date()`, `Date.now()`);
  - the browser's own date parser (`new Date(value)`);
  - the local time zone that `getFullYear`/`getMonth`/`getDate` use.
- The `RangeError` that `toISOString` throws outside ±8.64e15 ms: days are unbounded integers here.
- Text.ToLower: lowers A-Z and KELVIN SIGN only, not the full Unicode case mapping of `toLowerCase`. A search query or a spoken chunk with other non-ASCII upper-case letters is lowered differently by the browser.
- Characters outside the Basic Multilingual Plane are one `char` here, where JavaScript has two UTF-16 code units. No regular expression or comparison of the model tells them apart.
- Grammar.MatchSetPrefixedOf: the `set` prefix is characterised with a connector; `set <field> <value>` with no connector is covered only by `Grammar.MatchSet`.
- Launcher.Action: a missing `href` is represented as the empty string, which JavaScript also treats as falsy.
- The `starred` and `settings` tabs: static text.
- `src/app/guide/[defect]/page.tsx` and `src/app/api/items/route.ts` are not part of this model.

## Findings

| source | as written | input that shows it | evidently intended | confidence | as-written member | corrected member |
|---|---|---|---|---|---|---|
| src/app/items/create/page.tsx:173-185 | `recog.onresult` closes over the `handleSpeechChunk` of the render that called `startRecognizer`, so line 239 reads the `activeField` of that render. After "enter text for <field>" moves the focus, the following words are still handled as if no field were active, and they are dropped. | A global session started with no active field, then the final chunks "enter text for name" and "John" | "John" is appended to the Name field, as the comments at lines 209 and 238 describe; the `Dictation` class follows this reading | not executed | Interpreter.OnResultAsWritten, Interpreter.EnterTextForNameThenJohnAsWritten | Interpreter.OnResult, Interpreter.EnterTextForNameThenJohn |
