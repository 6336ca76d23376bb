# Agenda linker: a verified model of the note-splitting pipeline

The plug-in turns a pasted day's agenda into note links. Its command
`splitLinesToNotes` goes through six steps:

1. It splits the selected text at line feeds and trims every line.
2. It drops the noise lines: blank lines, "all day", headsets, time ranges,
   "City, ST" locations and URLs.
3. It rewrites a one-on-one meeting such as "Jacob / Shawn" (when the user
   is Shawn) into "Jacob one-on-one".
4. It turns each title into a legal filename.
5. Unless the date format setting is `none`, it appends a date: the one in
   the open note's name, else today's.
6. It wraps each title as `[[...]]` and merges the links for one person on
   one date into a single link.

This project models those steps in Dafny and proves what each step and the
whole pipeline guarantee.

Modules (one per source file or concern):

- `Strings`: the JavaScript string built-ins the code relies on. These are
  `\s` and `trim()`, `\d`, `\w`, ASCII `toLowerCase()`, `includes`,
  `String(n)`, `padStart(2, '0')`, `parseInt(…, 10)` and `join`.
- `Regex`: a small backtracking matcher. It follows the ECMAScript choice
  order: greedy runs longest first, lazy runs shortest first, optional
  groups body first, alternation left first. It is used for the regular
  expressions whose choices matter. `FirstParse` is proved sound and
  complete against a declarative meaning (`PieceMatches`, `SeqMatches`).
- `Config`: the settings record, its defaults, and what the settings tab
  lets a user store.
- `LineFilter`: `shouldSkipLine`.
- `OneOnOne`: `processOneOnOneLine`, with both patterns given piece by piece.
- `Sanitizer`: `sanitizeFilename`, one function per regular-expression
  rewrite.
- `Dates`: `extractDateFromFilename`, `formatDate` and
  `appendDateToFilename`. It includes the normalisation that JavaScript's
  `new Date(y, m, d)` performs.
- `Events`: `parseEventFilename`.
- `Combiner`: `combineEvents`. It has two forms:
  - a specification stated index by index (`CombineSpec`);
  - the source's three loops over a map of groups, a map of merged links and
    a set of skipped indices (`CombineEvents`), proved equal to the
    specification.
- `Notes`: the `splitLinesToNotes` pipeline and its outcome.

Behaviour the model keeps as the code has it:

- **The user-first pattern takes one character.** This is
  `^\s*U\s*([/<>]+)\s*([\w\s]+?)(\s+1:1)?\s*(.*)$`. Its lazy other-person
  group is followed by a greedy `(.*)`, so it keeps exactly one character.
  "Shawn / Jacob" therefore becomes "J acob"
  (`OneOnOne.UserFirstTakesOneChar`, `OneOnOne.FirstQuirkExample`).
- **A time range must be the whole line.** The time-range pattern is
  anchored at both ends, so "Lunch 12 – 1pm" is kept (`LineFilter.LunchKept`).
- **`new Date` rollover.** Dates pass through `new Date` on their way out,
  so "2026-02-30" in the open note's name stamps 2026-03-02, and a year
  written `0099` means 1999.
- **The year is not padded.** `formatDate` writes `String(year)`, so the
  year 500 gives "500-01-01".

## Model

| member | source | states |
|---|---|---|
| Strings.TrimSpec | src/main.ts:44 | `trim()` keeps one slice of the line, drops only whitespace on either side, and what is left neither starts nor ends with whitespace. |
| Strings.TrimTwice | src/main.ts:100 | Trimming an already trimmed line changes nothing. |
| Regex.FirstParseSound | src/oneOnOneProcessor.ts:39 | Whatever the backtracking engine returns is a genuine way for every piece of the pattern to match its part of the input. |
| Regex.FirstParseComplete | src/oneOnOneProcessor.ts:39 | The engine finds a match whenever the pattern can match at all, so a failed `match` means no match exists. |
| Regex.FirstParseAscending | src/oneOnOneProcessor.ts:41-42 | The capture boundaries the engine returns never go backwards and stay within the line, so every captured group is a real substring. |
| Regex.FirstCandidateWins | src/oneOnOneProcessor.ts:28 | Priority: when the rest of the pattern can succeed after the first end a piece offers, the engine commits to that end. |
| Regex.TestMeaning | src/main.ts:64 | `test()` of a `^`-anchored pattern succeeds exactly when the pattern matches some prefix of the line. |
| Regex.SeqMatchesEnd | src/main.ts:63 | A pattern ending in `$` can only match up to the end of the input. |
| Regex.RunLengthSpec | src/main.ts:63 | A maximal run of class characters consists only of that class and cannot be extended. |
| LineFilter.ShouldSkipLine | src/main.ts:43-82 | `shouldSkipLine`: its six tests on the trimmed line. `LineFilter.SkipMeaning` characterises it as an if-and-only-if, and the examples below fix the edge of each test. |
| LineFilter.SkipMeaning | src/main.ts:43-82 | A line is skipped exactly when, once trimmed, it is empty, is "all day" in any case, mentions "headset", is wholly a time range, is a location, or holds `http://` or `https://`. |
| LineFilter.BlankSkipped | src/main.ts:47-49 | A line of nothing but whitespace is skipped. |
| LineFilter.AllDayAndHeadset | src/main.ts:52-59 | "all day" in any letter case, or any mention of a headset, skips the line. |
| LineFilter.AllDaySkipped | src/main.ts:52-54 | "All Day" is skipped: the comparison ignores case. |
| LineFilter.AllDayPlanningKept | src/main.ts:52-54 | A title that only begins with "All day" is not skipped: the comparison is with the whole line. |
| LineFilter.TimeRangeWhole | src/main.ts:63-64 | The time-range test passes exactly when the pattern matches the whole trimmed line. |
| LineFilter.TimeRangeStartsWithDigit | src/main.ts:63 | A time range begins with a digit. |
| LineFilter.ShortRangeSkipped | src/main.ts:61-66 | "7 – 8:05am", with an en dash, is a time range and is skipped. |
| LineFilter.LongRangeSkipped | src/main.ts:61-66 | "9:00 - 10:30pm", with a hyphen, is a time range and is skipped. |
| LineFilter.LunchKept | src/main.ts:63-66 | "Lunch 12 – 1pm" is kept: text before the range stops the anchored pattern. |
| LineFilter.LocationMeaning | src/main.ts:70-71 | The location test succeeds exactly on the lines that are a run of word characters and spaces, a comma, one or more spaces, and two capitals at the end. |
| LineFilter.LocationLineSkipped | src/main.ts:70-73 | Every trimmed location line is skipped. |
| LineFilter.LocationSkipped | src/main.ts:68-73 | "Phoenix, AZ" is skipped. |
| LineFilter.LowerStateKept | src/main.ts:70 | The location test is case-sensitive: "Phoenix, az" is kept. |
| LineFilter.NoSpaceKept | src/main.ts:70 | The location test needs whitespace after the comma: "Phoenix,AZ" is kept. |
| LineFilter.UrlSkipped | src/main.ts:75-79 | A line holding `http://` or `https://` anywhere is skipped. |
| LineFilter.NoUrl | src/main.ts:76 | A line without `:` holds no URL. |
| LineFilter.NotTimeRange | src/main.ts:63 | A line that does not start with a digit is never a time range. |
| LineFilter.Kept | src/main.ts:43-82 | A non-empty trimmed line passes all six tests and is kept when it is not seven characters long (so not "all day"), lacks some letter of "headset" in both cases, does not start with a digit, is not a location and holds no `:`. |
| OneOnOne.ProcessOneOnOneLine | src/oneOnOneProcessor.ts:6-70 | `processOneOnOneLine`: the line itself for a blank user name or when neither pattern matches, else the title from the first pattern that matches. `OneOnOne.UserFirstForm` and `OneOnOne.UserSecondForm` give the title for each shape of line. |
| OneOnOne.BlankUserUnchanged | src/oneOnOneProcessor.ts:7-9 | An empty or all-whitespace user name disables the rewrite: the line comes back unchanged. |
| OneOnOne.UnchangedWithoutSeparator | src/oneOnOneProcessor.ts:27-69 | Both patterns need one of `/ < >`, so a line without a separator comes back unchanged. |
| OneOnOne.ParseNeedsSeparator | src/oneOnOneProcessor.ts:27-36 | A match of either pattern implies the line holds a separator. |
| OneOnOne.RewriteDrawsOn | src/oneOnOneProcessor.ts:39-70 | A rewritten title holds no character that is neither in the line nor in " one-on-one". |
| OneOnOne.UserFirstTakesOneChar | src/oneOnOneProcessor.ts:27-41 | On a line without line breaks, the lazy other-person group of the user-first pattern captures exactly one character whenever the pattern matches. |
| OneOnOne.UserFirstForm | src/oneOnOneProcessor.ts:27-50 | On a line of the form user, spaces, separators, spaces, a word character `c`, rest `t`, the case-insensitive user-first pattern matches. The title is `c` followed by the trimmed marker-free rest, or "`c` one-on-one" when that rest is blank. |
| OneOnOne.UserSecondForm | src/oneOnOneProcessor.ts:33-65 | On a line of the form other person, spaces, separators, spaces, user, rest `t`, where the line does not begin with the user's name: the user-first pattern fails and the user-second pattern matches. The title is "other suffix", or "other one-on-one" when `t` is blank or only a " 1:1" marker. |
| OneOnOne.UserSecondFormMatch | src/oneOnOneProcessor.ts:39-56 | On such a line the user-first `match` returns nothing. The user-second `match` captures the other person exactly, and its suffix group trims to the trimmed rest of the line without its " 1:1" marker. |
| OneOnOne.UserFirstFailsOnOther | src/oneOnOneProcessor.ts:27-40 | The user-first pattern fails on a line that does not begin, after no whitespace, with the user's name (letters compared without case). |
| OneOnOne.InsideOtherFails | src/oneOnOneProcessor.ts:34 | The lazy other-person group of the user-second pattern cannot stop inside the other person's name: the separator run then finds no separator. |
| OneOnOne.MarkerChoice | src/oneOnOneProcessor.ts:28 | The optional `(\s+1:1)?` group is taken exactly when whitespace and "1:1" follow, and is otherwise skipped. |
| OneOnOne.MarkerBodyMatches | src/oneOnOneProcessor.ts:28 | `\s+1:1` matches from a position exactly up to the end of the whitespace run followed by "1:1" (letters folded). |
| OneOnOne.TailCapture | src/oneOnOneProcessor.ts:28 | The shared tail `(\s+1:1)?\s*(.*)$` matches the rest of a line without line breaks. The suffix group starts after the marker and the whitespace after it, and runs to the end. |
| OneOnOne.SuffixTrim | src/oneOnOneProcessor.ts:42 | The trimmed suffix group is the trimmed rest of the line once a leading " 1:1" marker is removed. |
| OneOnOne.RenderTrimmed | src/oneOnOneProcessor.ts:41-49 | The title depends on the captured groups only through their trimmed forms. |
| OneOnOne.SecondPlainExample | src/oneOnOneProcessor.ts:63 | "Jacob / Shawn" for user Shawn becomes "Jacob one-on-one". |
| OneOnOne.SecondSuffixExample | src/oneOnOneProcessor.ts:60 | "Jacob <> Shawn Intro" for user Shawn becomes "Jacob Intro". |
| OneOnOne.FirstQuirkExample | src/oneOnOneProcessor.ts:26-51 | "Shawn / Jacob" for user Shawn becomes "J acob". The lazy group keeps one character, contrary to the source comments' "Jacob one-on-one". |
| Sanitizer.BracketsRemovedFirst | src/filenameSanitizer.ts:9-28 | For every text `m`, whatever it holds, `[[m]]` cleans to what `m` alone gives after replacement, collapsing and the two strips: the link's own brackets are removed before any character is replaced, so they never turn into replacement characters. |
| Sanitizer.Sanitize | src/filenameSanitizer.ts:7-43 | `sanitizeFilename`: the rewrites in the source's order, then the fallback and truncation. `Sanitizer.SanitizeClean`, `Sanitizer.SanitizeLength` and `Sanitizer.SanitizePrefix` state what the result is. |
| Sanitizer.ReplaceIllegalSpec | src/filenameSanitizer.ts:16-17 | Position by position, every illegal character becomes the replacement character and every other character stays. |
| Sanitizer.ReplaceIllegalClean | src/filenameSanitizer.ts:16-17 | With a legal replacement nothing illegal remains, and a text with nothing illegal is unchanged. |
| Sanitizer.CollapseNoDoubled | src/filenameSanitizer.ts:20-21 | After collapsing, no two replacement characters are adjacent, and the first character is kept. |
| Sanitizer.CollapseKeepsOthers | src/filenameSanitizer.ts:20-21 | Collapsing removes only replacement characters: all other characters remain, in order. |
| Sanitizer.CollapseOfSingle | src/filenameSanitizer.ts:20-21 | A text with no doubled replacement character is left unchanged. |
| Sanitizer.CollapseIdempotent | src/filenameSanitizer.ts:20-21 | Collapsing twice is collapsing once. |
| Sanitizer.DropLeadingSpec | src/filenameSanitizer.ts:23-28 | Stripping the leading run removes a prefix of strippable characters only, and what remains does not start with one. |
| Sanitizer.DropTrailingSpec | src/filenameSanitizer.ts:23-28 | Stripping the trailing run removes a suffix of strippable characters only, and what remains does not end with one. |
| Sanitizer.StripRunsSpec | src/filenameSanitizer.ts:23-28 | The two-sided strip keeps one slice of its input, and that slice neither starts nor ends with a strippable character. |
| Sanitizer.CleanedSpec | src/filenameSanitizer.ts:9-28 | With a valid replacement character, the rewrites leave no illegal character, no two adjacent replacement characters, and no replacement character at either end. |
| Sanitizer.SanitizeClean | src/filenameSanitizer.ts:7-43 | A sanitised name holds no illegal character and no doubled replacement character. Unless it is "untitled", it neither starts nor ends with the replacement character, truncation included. |
| Sanitizer.TruncateKeeps | src/filenameSanitizer.ts:36-40 | Cutting to the limit and removing the replacement run this exposes keeps a clean name clean at both ends. |
| Sanitizer.SanitizeLength | src/filenameSanitizer.ts:35-40 | A sanitised name other than the fallback fits within `maxFilenameLength`. |
| Sanitizer.SanitizePrefix | src/filenameSanitizer.ts:30-40 | A text that cleans to nothing becomes "untitled". Any other text becomes a prefix of its cleaned form, never empty when the limit is at least one. |
| Sanitizer.SanitizeDrawsOn | src/filenameSanitizer.ts:7-43 | Sanitising introduces no character except the replacement character and those of "untitled". |
| Sanitizer.SanitizeKeepsCleanName | src/filenameSanitizer.ts:7-43 | A name that is already clean and within the limit is unchanged, whether bare or wrapped in link brackets. |
| Sanitizer.ReplaceAppend | src/filenameSanitizer.ts:16-17 | Replacing works character by character, so it distributes over concatenation. |
| Sanitizer.CollapseAppend | src/filenameSanitizer.ts:20-21 | Collapsing distributes over a concatenation whose left part does not end in the replacement character. |
| Sanitizer.WorkedExample | src/filenameSanitizer.ts:7-43 | "Project: Plan??" with the default settings becomes "Project- Plan". |
| Sanitizer.EmptyExamples | src/filenameSanitizer.ts:30-33 | "", "???" and " . " all become "untitled" with the default settings. |
| Config.DefaultsValid | src/settings.ts:8-13 | The default settings are what the settings tab allows: replacement `-` and length 200. |
| Dates.ForwardCounts | src/dateFormatter.ts:12 | Moving `n` days forward advances the day number by exactly `n`, so the calendar arithmetic behind `new Date` is consistent. |
| Dates.MakeDate | src/dateFormatter.ts:9-21 | `new Date(y, m, d)` with its carries always yields a real calendar date. `Dates.MakeDateCounts` gives the day it lands on, and `Dates.MakeDateOfValid` shows that a real date stays itself. |
| Dates.MakeDateCounts | src/dateFormatter.ts:9-21 | `new Date(y, m - 1, d)` lands on the day that is `d - 1` days after the first of the month, once the month has been carried into the year. The years 0 to 99 mean 1900 to 1999. |
| Dates.MakeDateOfValid | src/dateFormatter.ts:12 | For a real date from the year 100 on, `new Date` returns the same year, month and day. |
| Dates.FindFrom | src/dateFormatter.ts:7-16 | `match` finds the leftmost position where the pattern holds, or reports that it holds nowhere. |
| Dates.ExtractDateSpec | src/dateFormatter.ts:5-25 | The first dash-form date wins. Only without any dash-form date is the first compact date used. No date is found exactly when neither pattern occurs. |
| Dates.ExtractDate | src/dateFormatter.ts:5-25 | A date found in a filename is always a real calendar date, because of the normalisation. |
| Dates.ExtractFormatted | src/dateFormatter.ts:5-38 | Extracting from a formatted date with a four-digit year gives that date back, in either format. |
| Dates.ExtractThenFormat | src/dateFormatter.ts:5-38 | When the first date in a filename names a real date, formatting what was extracted in the matching format reproduces exactly the text that was matched. |
| Dates.FormatShape | src/dateFormatter.ts:27-38 | A formatted date with a four-digit year is one match of its format's pattern, and its fields are the date's year, month and day. |
| Dates.FormatDate | src/dateFormatter.ts:27-38 | A formatted date is the year's digits plus six characters in the dashed form, or plus four in the compact form. |
| Dates.AppendDate | src/dateFormatter.ts:40-56 | The title is followed by a space and the formatted date. The date comes from the reference filename when that is non-empty and holds a date, and is `now` otherwise. |
| Dates.FieldsDetermine | src/dateFormatter.ts:7-16 | Two whole matches with the same fields are the same text. |
| Dates.RolloverExample | src/dateFormatter.ts:7-12 | "2026-02-30" is read as 2 March 2026. |
| Dates.SmallYearExample | src/dateFormatter.ts:9-12 | "0099-01-01" is read as 1 January 1999. |
| Dates.ZeroFieldsExample | src/dateFormatter.ts:9-12 | "2026-00-00" is read as 30 November 2025. |
| Dates.CompactExample | src/dateFormatter.ts:16-22 | Without a dash-form date, the first eight digits in a row are read. |
| Dates.DashFirstExample | src/dateFormatter.ts:7-16 | A dash-form date wins over an earlier compact one: "20260218-01-02" is read as 2 January 218. |
| Dates.UnpaddedYearExample | src/dateFormatter.ts:29-37 | The year is not padded ("500-01-01"); the compact form joins the fields ("20260218"). |
| Events.ParseEvent | src/eventCombiner.ts:14-61 | `parseEventFilename`: the date at the end of the cleaned link, then the person pattern on what precedes it. `Events.ReadBack` reads back what a merged link was built from, and `Events.KeyedEvent` describes every keyed event. |
| Events.TrailingDateWidth | src/eventCombiner.ts:19-35 | A trailing date is 10 characters long (dash form), else 8 (compact), else absent. It never exceeds the text. |
| Events.EventDate | src/eventCombiner.ts:16-35 | An event's date is the date at the end of its cleaned link, whether or not a person is found. |
| Events.Describe | src/eventCombiner.ts:40-60 | The event keeps the date, the original link and the index. Without a person, the description is the whole text before the date. |
| Events.ParseAll | src/eventCombiner.ts:73 | One event per link, each recording its own link and its index. |
| Events.PersonFound | src/eventCombiner.ts:40-51 | A found person is a name: a capitalised word, or two joined by a hyphen. The text is that name, whitespace, then a non-empty one-line description. |
| Events.NameLetters | src/eventCombiner.ts:40 | A person holds only letters and hyphens: never `|`, a space or a line break. |
| Events.KeyInjective | src/eventCombiner.ts:80 | The key `person|date` determines both of its parts whenever the persons are names, so two groups never share a key. |
| Events.SameKeySameParts | src/eventCombiner.ts:79-80 | Two links whose parsed events have the same key name the same person and the same date, so the merged link's person and date, taken from the first member, stand for every member. |
| Events.KeyedEvent | src/eventCombiner.ts:14-61 | An event with a grouping key has a name-shaped person, a one-line description and a date in one of the two forms. |
| Events.PersonOfName | src/eventCombiner.ts:40-51 | For a name, a space and a one-line description, the person found is that name, and the description comes back when it does not start with whitespace. |
| Events.ReadBack | src/eventCombiner.ts:14-61 | The link `[[person description date]]` reads back with that person and that date, in either date form. |
| Events.Unwrapped | src/eventCombiner.ts:16 | The link brackets come off whole, and the rest is trimmed. |
| Events.TextParts | src/eventCombiner.ts:16-35 | From the text of such a link, the date is split off and what precedes it is "person description". |
| Events.DateWidthAtEnd | src/eventCombiner.ts:19-35 | A date at the very end of a text is found there, at its own width. |
| Events.ShortUnkeyed | src/eventCombiner.ts:19-35 | A link shorter than eight characters has no room for a date, so it is never grouped. |
| Events.FiveDigitYear | src/eventCombiner.ts:19-28 | The date pattern is not anchored on its left: a link ending `10000-01-01` is read as dated `0000-01-01`. |
| Combiner.CombineSpec | src/eventCombiner.ts:71-132 | What `combineEvents` returns, stated index by index. `Combiner.CombineEvents` is proved to compute it, and the lemmas below state its count, order, contents and idempotence. |
| Combiner.Group | src/eventCombiner.ts:76-86 | Every event in a group carries the group's key. |
| Combiner.GroupFacts | src/eventCombiner.ts:73-86 | A group lists exactly the events with its key, in increasing position, each the event at its own index. |
| Combiner.GroupTail | src/eventCombiner.ts:106-109 | The members after the first of a group are exactly the other events with its key. |
| Combiner.FirstLeads | src/eventCombiner.ts:103-104 | The first member of a group of two or more is where its merged link is placed. |
| Combiner.KeptFacts | src/eventCombiner.ts:116-129 | The positions kept in the output increase, and are exactly those not merged into an earlier link. |
| Combiner.OutputByKept | src/eventCombiner.ts:114-131 | The output lists, in original order, the merged link or the link itself at each kept position. |
| Combiner.CombineLength | src/eventCombiner.ts:71-132 | Combining never lengthens the list, and keeps its length exactly when no link is merged away. |
| Combiner.CombineCount | src/eventCombiner.ts:94-129 | The number of links out is the number in, less the links merged away. That is the number in less the sum of `|group| - 1` over the person-and-date groups of two or more. |
| Combiner.SkippedRepeats | src/eventCombiner.ts:106-109 | A link is merged away exactly when an earlier link carries its key. |
| Combiner.CombineNonEmpty | src/eventCombiner.ts:71-132 | A non-empty list of links combines into a non-empty list. |
| Combiner.MergedPresent | src/eventCombiner.ts:94-124 | The merged link of every group of two or more appears in the output. |
| Combiner.UnkeyedPresent | src/eventCombiner.ts:116-128 | A link without both a person and a date is kept as it is. |
| Combiner.SameKeyKept | src/eventCombiner.ts:94-120 | Of two links with the same key, at least one is dropped. |
| Combiner.Unchanged | src/eventCombiner.ts:71-132 | When no two links share a person and a date, the list comes back unchanged. |
| Combiner.MergedKey | src/eventCombiner.ts:97-101 | A merged link `[[person d1 and d2 … date]]` reads back with its group's person and date. |
| Combiner.OutputShareless | src/eventCombiner.ts:71-132 | After combining, no two links share a person and a date. |
| Combiner.CombineIdempotent | src/eventCombiner.ts:71-132 | Combining a second time changes nothing. |
| Combiner.CombineLineFree | src/eventCombiner.ts:97-101 | Combining introduces no line feed: the output is line-free when the input is. |
| Combiner.JoinOneLine | src/eventCombiner.ts:99-100 | Descriptions joined with " and " stay on one line. |
| Combiner.MergeTwo | src/eventCombiner.ts:63-70 | Two links for one person on one date among three short undated links: the second merges into the first as "d1 and d2", and the others stay in order. |
| Combiner.CommentExample | src/eventCombiner.ts:67-69 | The example in the comment: "Jacob one-on-one" and "Jacob Career Discussion" on 2026-02-18 merge at the first one's place, and "Event 1" to "Event 3" stay. |
| Combiner.MergePair | src/eventCombiner.ts:94-129 | Two links for one person on one date, and nothing else, merge into a single link. |
| Combiner.PairExample | src/eventCombiner.ts:94-104 | "[[Jacob one-on-one 2026-02-18]]" and "[[Jacob Career Discussion 2026-02-18]]" become "[[Jacob one-on-one and Career Discussion 2026-02-18]]". |
| Combiner.CombineEvents | src/eventCombiner.ts:71-132 | The three-pass algorithm returns exactly the index-by-index specification of combining. |
| Combiner.GroupByKey | src/eventCombiner.ts:76-86 | The first loop builds a map holding, for each key, exactly the group of events with that key. It lists the map's keys once each, as `Combiner.KeysUpTo` orders them: in the order they first appear (`Combiner.KeysFirstSeen`). |
| Combiner.KeysMembers | src/eventCombiner.ts:78-86 | A key is listed exactly when some event carries it, and no key is listed twice. |
| Combiner.KeysFirstSeen | src/eventCombiner.ts:78-86 | The keys come in the order of their first events: every event with a later key is preceded by an event with each earlier key. |
| Combiner.MarkGroups | src/eventCombiner.ts:89-111 | The second loop marks for skipping exactly the later members of groups of two or more. It places each group's merged link at the index of its first member. |
| Combiner.SkipLater | src/eventCombiner.ts:107-109 | The inner loop adds the index of every group member after the first, and nothing else. |
| Combiner.Assemble | src/eventCombiner.ts:113-131 | The third loop emits, in order, nothing for a skipped index, the merged link where one is placed, and the original link elsewhere. |
| Notes.SplitLines | src/main.ts:97 | `split('\n')` gives at least one piece, and no piece holds a line feed. |
| Notes.JoinSplit | src/main.ts:97-128 | Joining the pieces of a split with line feeds gives the text back. |
| Notes.SplitJoin | src/main.ts:97-128 | Splitting line-free pieces joined with line feeds gives the pieces back. |
| Notes.KeepSpec | src/main.ts:99-101 | Every kept line is one of the trimmed lines, non-empty, trimmed and accepted by the filter. Every line the filter accepts is kept, trimmed. |
| Notes.KeepNone | src/main.ts:99-122 | Nothing is kept exactly when the filter rejects every line. |
| Notes.KeepIdempotent | src/main.ts:99-101 | Filtering already filtered lines changes nothing. |
| Notes.KeepConcat | src/main.ts:99-101 | The kept lines of two runs of lines are those of the first followed by those of the second. |
| Notes.ShouldSkipTrimsFirst | src/main.ts:43-49 | `shouldSkipLine` rejects the empty line and decides on the trimmed line, so trimming before filtering loses nothing. |
| Notes.NoteName | src/main.ts:109-111 | The filename with the date appended, or unchanged when the date format is `none`. `Notes.NoteNameLegal` and `Notes.DatedLink` state what that keeps. |
| Notes.LinkOf | src/main.ts:102-115 | The wikilink of one surviving line: the one-on-one rewrite, sanitising, the date, then `[[` and `]]`. `Notes.LinkLineFree` states what it keeps. |
| Notes.Links | src/main.ts:99-115 | As many links as surviving lines, the link at each position built from the line at that position. |
| Notes.FilenameLegal | src/main.ts:104-107 | With a replacement character the settings tab accepts, every filename is free of illegal characters. |
| Notes.NoteNameLegal | src/main.ts:109-112 | Appending the date keeps a legal filename legal, so the link's only brackets are its own. |
| Notes.LinkLineFree | src/main.ts:102-116 | A link holds no line feed when its line holds none and the replacement character is not a line feed. |
| Notes.DatedLink | src/main.ts:109-115 | When a date format is chosen and the stamped date has a four-digit year, the combiner reads exactly that date back from the link, whatever the title. |
| Notes.NoticeExamples | src/main.ts:134 | One link is counted in the singular ("Created 1 note link"), and other counts in the plural. |
| Notes.SplitLinesToNotes | src/main.ts:84-135 | `splitLinesToNotes`: the command's outcome from the selection, the settings, the open note's name and today's date. `Notes.OutcomeKinds` and `Notes.ReplacedText` state it. |
| Notes.OutcomeKinds | src/main.ts:84-135 | An empty selection gives only the "No text selected" notice. A selection whose every line is skipped gives only "No valid lines to convert". Any other selection is replaced. |
| Notes.SurvivorsNone | src/main.ts:99-122 | No line survives the filter exactly when `shouldSkipLine` rejects every line. |
| Notes.ReplacedText | src/main.ts:119-134 | The replacement is the combined links joined with line feeds, and the notice counts them. There is at least one link and at most one per selected line. Without shared keys every link survives. |
| Notes.NoticeCountsLines | src/main.ts:125-134 | The replacement text splits back into exactly the combined links, so the notice counts its lines. |
| Notes.KeptLineFree | src/main.ts:97-101 | The lines that survive a split selection hold no line feed. |

## Left out

- The plug-in shell lives outside `src/main.ts:84-135`: the editor calls
  (`getSelection`, `replaceSelection`), the `Notice` pop-ups, command
  registration, and loading and saving settings. The command's outcome
  (`Notes.Outcome`) holds what the editor and the notice would receive.
- The open file's base name and today's date are parameters of
  `Notes.SplitLinesToNotes`. The clock `new Date()` and the time zone are not
  modelled: a date is the local calendar fields that the getters report.
- The settings tab's UI (`src/settingsTab.ts`) is not modelled. Its
  constraints are kept as the predicate `Config.ValidSettings`: a
  replacement character that is not illegal, and a length from the slider's
  range of 50 to 250.
- `Config.ValidReplacement` also excludes ASCII letters and digits and
  characters outside one UTF-16 code unit. The sanitiser writes the
  replacement after a backslash inside a regular expression, where `\d`,
  `\w`, `\s` and similar escapes would change meaning. The settings tab does
  not refuse those characters.
- Strings are sequences of characters. UTF-16 surrogate pairs and Unicode
  case mapping beyond ASCII are not modelled: `toLowerCase()` and the `i`
  flag fold ASCII letters only, and `\w` and `\d` are ASCII as in
  JavaScript.
- Notes.DatedLink: stated only for a stamped date with a four-digit year.
  A year below 1000 forms no date at the end of the link, because a space
  always precedes it, so the combiner finds no date there. A year of five or
  more digits, which rollover can reach ("9999-12-32" in the open note's name
  gives 10000-01-01), still ends in a full date pattern. The combiner then
  reads only the last four digits of the year (`Events.FiveDigitYear`), so
  links for the same day in the years 10000 and 20000 would share a key.
- Notes.NoticeCountsLines: requires a replacement character that is not a
  line feed. A line feed used as the replacement would split one link over
  two lines of the replacement text.
- Combiner.CommentExample: "Event 1" to "Event 3" stand for any links
  shorter than eight characters, because such links hold no date.
- Only the regular expressions whose backtracking choices matter go
  through the general matcher: the time range, the location, the two
  one-on-one patterns and the person pattern. The date patterns, the URL test and the
  bracket removals have fixed width, so they are written as direct
  character tests.
