# Scrolling lyrics: a verified model of the lyric-synchronisation core

The repository shows song lyrics in a web page and keeps the line being sung
highlighted and scrolled into view while the audio plays. Its only logic sits
in `js/index.js`:

- `parseTime` turns a `MM:SS.ff` timestamp into seconds;
- `parseLyrics` turns the raw lyrics text (one `[MM:SS.ff]text` line per
  `\n`) into `{time, content}` records, in input order;
- `findIndex` scans the records for the line that is current at the playback
  position;
- `setOffset`, run on every `timeupdate` of the audio element, computes the
  scroll offset of the list and moves the `active` marker to the current line.

This project models those four pieces in Dafny and proves what they do.

- `strings.dfy` (module `Strings`) models the two host string operations the
  code relies on: `split` with a one-character separator (`Split`, with its
  inverse `Join`) and `substring(1)` (`DropFirst`).
- `numbers.dfy` (module `Numbers`) models JavaScript numbers as NaN or an
  exact real (`Num`). It defines unary `+` on a string (`ToNumber`), `*`
  (`Scale`), `+` (`Add`) and `<` (`Less`). Every comparison with NaN is false.
- `lyrics.dfy` (module `Lyrics`) holds `ParseTime`, `ParseLine` (the body of
  the `forEach` callback) and the `ParseLyrics` loop. A record's content is an
  `Option<string>`: `None` stands for JavaScript's `undefined`.
- `locator.dfy` (module `Locator`) holds the `FindIndex` scan and its
  specification `ActiveIndex`. The playback position is a parameter.
- `renderer.dfy` (module `Renderer`) holds the offset formula (`Offset`) and
  the marker update (`Highlight`). `Offset` is the local value `offset`
  computed in `setOffset`; `AppliedTranslation` is the translation the list
  actually gets once `translateY(-${offset}px)` is assigned. Class
  `LyricList` is the rendered list: one `active` flag per `<li>` in an array,
  plus the list's current vertical translation in pixels (`translation`,
  negative is up). Its method `SetOffset` is the state update of `setOffset`.
- `wrappers.dfy` (module `Wrappers`) holds the `Option` type.

The model follows the code, including where a reader of LRC files might
expect otherwise:

- The content of a line is the text between the first and the second `]`
  (`parts[1]`), not the whole rest of the line. `[00:01.00]a]b` has content
  `a` (`ParseLineSecondBracket`).
- Blank lines, a trailing newline and lines without `]` are not rejected.
  Each still gives a record. The empty line gives time NaN and content
  `undefined` (`ParseLineEmpty`, `TrailingNewline`). The empty input gives one
  such record, not an error.
- No timestamp is rejected. A field that does not convert gives NaN, and so
  does a missing seconds field. An empty field counts 0, so `5:` is 300
  seconds (`ParseTimeEmptySeconds`). Fields after the second are ignored, so
  `1:2:3` is 62 seconds (`ParseTimeOfFields`). NaN times never stop the
  `findIndex` scan, because `currentTime < NaN` is false.
- `parseLyrics` returns one record per `\n`-separated segment, blank ones
  included.

## Model

| member | source | states |
|---|---|---|
| `Strings.Split` | js/index.js:26 | `s.split(c)` has one more part than `s` has separators |
| `Strings.SplitNoSeparator` | js/index.js:26 | no part of `s.split(c)` contains `c` |
| `Strings.SplitJoinBack` | js/index.js:26 | joining the parts of `s.split(c)` with `c` gives `s` back |
| `Strings.SplitJoin` | js/index.js:29 | splitting is the only cut into separator-free parts that join back to the string: `Split(Join(parts, c), c) == parts` |
| `Strings.SplitAfterFirst` | js/index.js:29 | when `p` has no separator, splitting `p + c + t` gives `p` followed by the parts of `t` |
| `Strings.SplitTrailingSeparator` | js/index.js:26 | a string ending in the separator splits into the parts of the rest plus one empty last part |
| `Strings.DropFirstRestore` | js/index.js:30 | `substring(1)` drops exactly the first character: putting it back gives the string again, and the empty string stays empty |
| `Strings.FirstIndex` | js/index.js:29 | the index returned holds `c` and no earlier character is `c` |
| `Numbers.Add` | js/index.js:15 | `a + b` is a number exactly when both sides are, and then it is their sum |
| `Numbers.Scale` | js/index.js:15 | `a * 60` is a number exactly when `a` is, and then it is the product |
| `Numbers.Less` | js/index.js:48 | `currentTime < time` is false whenever `time` is NaN |
| `Numbers.ToNumber` | js/index.js:15 | on the forms the model admits (empty, or digits with at most one `.`) the value is never negative; every other string is NaN, a narrowing listed under Left out |
| `Numbers.ToNumberInteger` | js/index.js:15 | a non-empty run of digits converts to its decimal value |
| `Numbers.ToNumberDecimal` | js/index.js:15 | `whole.frac` made of digits converts to `whole` plus the fraction `0.frac` |
| `Numbers.ToNumberStray` | js/index.js:15 | in the narrowed coercion, a character that is neither a digit nor `.` makes the field NaN (JavaScript also accepts signs, spaces and exponents; see Left out) |
| `Numbers.FractionValue` | js/index.js:15 | the digits after the decimal point contribute at least 0 and less than 1 |
| `Numbers.ToNumberExample` | js/index.js:15 | the seconds field `23.50` is 23.5 |
| `Lyrics.ParseTime` | js/index.js:13-16 | a timestamp without `:` has no seconds field and gives NaN |
| `Lyrics.ParseTimeOfFields` | js/index.js:14-15 | for two or more `:`-separated fields the value is `+fields[0] * 60 + +fields[1]`; later fields are ignored |
| `Lyrics.ParseTimeMinutesSeconds` | js/index.js:14-15 | `mm:ss` gives `+mm * 60 + +ss`, NaN if either field is NaN |
| `Lyrics.ParseTimeEmptySeconds` | js/index.js:14-15 | `mm:` has an empty seconds field, which counts 0: the value is `+mm * 60` |
| `Lyrics.ParseTimeNumeric` | js/index.js:13-16 | when the fields are the numbers `x` and `y`, `mm:ss` is `x * 60 + y` seconds |
| `Lyrics.ParseTimeExample` | js/index.js:13-16 | `01:23.50` is 83.5 seconds |
| `Lyrics.ParseTimeZero` | js/index.js:13-16 | `00:00` is 0 seconds |
| `Lyrics.ParseLineContent` | js/index.js:29-32 | the content is undefined exactly when the line has no `]`, and defined content never holds a `]` |
| `Lyrics.ParseLineTagged` | js/index.js:29-32 | for `[ts]rest`, the time is `parseTime(ts)` and the content is `rest` up to its first `]`; the first code point is dropped by position whatever it is, other than `]` |
| `Lyrics.ParseLineWellFormed` | js/index.js:29-32 | a well-formed line `[ts]text` whose text has no `]` gives `{parseTime(ts), text}` |
| `Lyrics.ParseLineSecondBracket` | js/index.js:29-32 | text after a second `]` is lost: `[ts]a]b` has content `a` |
| `Lyrics.ParseLineNoBracket` | js/index.js:29-32 | a line without `]` has undefined content and its time is read from the line minus its first character |
| `Lyrics.ParseLineEmpty` | js/index.js:29-32 | the empty line gives time NaN and undefined content |
| `Lyrics.ParseLyrics` | js/index.js:24-37 | one record per `\n`-separated segment, as many as there are newlines plus one, record `i` being the parse of segment `i` (the records are `ParseLine` mapped over the segments) |
| `Lyrics.TrailingNewline` | js/index.js:26 | a trailing newline adds exactly one last segment, the empty one, whose record has time NaN and undefined content |
| `Locator.FirstAfter` | js/index.js:47-51 | the first record whose time is after `t`: no earlier record's time is after `t`, and the length when there is none |
| `Locator.ActiveIndex` | js/index.js:45-53 | the answer lies in `[-1, length - 1]`, so it is -1 for no records |
| `Locator.FindIndex` | js/index.js:45-53 | the scan returns an index in `[-1, length - 1]`; no record up to it has a time after `currentTime`, and the next record, if any, has one; it equals `ActiveIndex` |
| `Locator.ActiveIndexIsFloor` | js/index.js:47-52 | on records sorted by time, index `j` is at most the answer exactly when its time is at most `t` (the floor search) |
| `Locator.ActiveIndexBeforeFirst` | js/index.js:48-49 | before the first record's time the answer is -1 |
| `Locator.ActiveIndexPastLast` | js/index.js:52 | when no record's time is after `t` the answer is the last index |
| `Locator.ActiveIndexMonotone` | js/index.js:47-52 | for any records, a later playback time never gives a smaller index |
| `Locator.ActiveIndexExample` | js/index.js:45-53 | lines at 0, 5 and 10 seconds give 0, 0, 1 and 2 at 0, 4.9, 5 and 12 seconds |
| `Renderer.Offset` | js/index.js:103 | the offset is the midpoint of the band `[index * h, (index + 1) * h]` that line `index` occupies |
| `Renderer.OffsetBeforeFirst` | js/index.js:103 | at index -1 the offset is minus half a line height |
| `Renderer.OffsetNegative` | js/index.js:103 | for indices from -1 on, the offset is negative exactly at -1 with a positive line height |
| `Renderer.OffsetStrictlyIncreasing` | js/index.js:103 | with a positive line height the offset grows strictly with the index |
| `Renderer.AppliedTranslation` | js/index.js:116 | a non-negative offset moves the list up by the offset; a negative one prints `translateY(--…px)`, which is not a CSS length, so the previous translation stays |
| `Renderer.TranslationFromFirstLine` | js/index.js:103-116 | from line 0 on, the list ends up moved up by the offset whatever it was before |
| `Renderer.TranslationBeforeFirst` | js/index.js:103-116 | before the first line, with a positive line height, the list keeps its previous translation |
| `Renderer.StaleScrollAfterSeekBack` | js/index.js:103-116 | with 10-pixel lines, seeking from line 3 back into the intro leaves the list at -35 pixels, while line 0 itself would put it at -5 |
| `Renderer.IntendedTranslation` | js/index.js:116 | the intended translation cancels the offset exactly, negative offsets included |
| `Renderer.IntendedTranslationDecreasing` | js/index.js:103-116 | with the intended translation the list moves up strictly as the line advances, from the intro on |
| `Renderer.FirstMarked` | js/index.js:106 | `querySelector(".active")` finds a marked item with no marked item before it, or none when nothing is marked |
| `Renderer.Highlight` | js/index.js:106-114 | the update keeps the length, marks item `index` when it exists, unmarks the first marked item unless that is `index`, and leaves every other item as it was |
| `Renderer.HighlightMarksExactly` | js/index.js:106-114 | from at most one marker, afterwards item `k` is marked exactly when `k == index`, so nothing is marked when `index` is out of range |
| `Renderer.HighlightKeepsAtMostOne` | js/index.js:106-114 | the update keeps "at most one item is marked" |
| `Renderer.HighlightIdempotent` | js/index.js:106-114 | from at most one marker, repeating the update for the same index changes nothing |
| `Renderer.HighlightTwoMarkers` | js/index.js:106-109 | only the first marker is removed: from two markers the second survives |
| `Renderer.LyricList.constructor` | js/index.js:62-72 | one unmarked item per record, translation 0 |
| `Renderer.LyricList.SetOffset` | js/index.js:94-116 | keeps at most one marker; the translation becomes `AppliedTranslation` of the old one and `Offset(ActiveIndex(records, currentTime), liHeight)`: minus the offset from line 0 on, unchanged before the first line when lines have a height; the flags become `Highlight` of the old flags, so exactly the current line is marked |

## Left out

- DOM lookups and construction (`doms`, `querySelector` on the document, `createDocumentFragment`, `createElement`, `appendChild`) are browser I/O. The list is only its array of `active` flags, and `createLyrics` is reduced to the constructor that makes one unmarked flag per record.
- The `scroll` and `timeupdate` listeners, the `bind(datas)` of `setOffset` and `init` are event wiring with no logic. `SetOffset` takes the records and the line height as parameters instead of through `this`.
- `doms.audio.currentTime` and `clientHeight` are host values. They are the parameters `currentTime` (a real) and `liHeight` (a natural number, as `clientHeight` is an integer).
- The transform string `translateY(-…px)` is not built. The list's translation is the number it denotes (`AppliedTranslation`), with the one CSS rule that matters here: a string CSS rejects leaves the previous transform in place.
- Renderer.LyricList.SetOffset: models the page as the code leaves it, including the stale translation before the first line (see Findings); the rendered position of each `<li>` and the `clientHeight` of the list are not modelled.
- The `userHasScrolled` flag, its `scroll` listener and the `console.log` branch are left out. The flag is reset to false just before it is tested, so the branch never runs.
- Numbers.ToNumber: covers only the forms a timestamp field takes here. These are the empty string (0), and digit runs with at most one `.` and at least one digit. Leading or trailing whitespace, signs, exponents, the hexadecimal, binary and octal prefixes (`0x`, `0b`, `0o`) and `Infinity`, which JavaScript also accepts, give NaN in the model.
- Numbers.ToNumberStray: holds of the narrowed coercion described in the line above; JavaScript converts some strings with such characters (`" 5"`, `"-1"`, `"1e2"`, `"0b11"`) to numbers.
- Lyrics.ParseLineTagged: strings are sequences of Unicode code points, while `substring(1)` drops one UTF-16 code unit. For a line whose first character lies outside the Basic Multilingual Plane (an emoji, say) JavaScript keeps the lone low surrogate in front of the timestamp and gets time NaN, where the model drops the whole character.
- Lyrics.ParseLineNoBracket: the same code-point reading of `substring(1)` applies to the time read from a line without `]`.
- Strings.DropFirstRestore: drops one code point, not one UTF-16 code unit, for the reason above.
- Floating point is not modelled. Numbers are exact reals, so rounding of `+str`, of `* 60`, of `+` and of `liHeight / 2` is not captured.
- `ParseLyrics` returns a new sequence where the source pushes into a local array. The array is local and nothing else sees it, so nothing is lost.

## Findings

| source | as written | input that shows it | evidently intended | confidence | as-written member | corrected member |
|---|---|---|---|---|---|---|
| js/index.js:103-116 | before the first line `offset` is `-liHeight / 2`, so the transform string is `translateY(--…px)`, which CSS rejects, and the list keeps whatever translation it had | 10-pixel lines, playback at line 3 (list at -35px), then a seek into the intro: the list stays at -35px instead of +5px, further up than line 0 would put it | the list is moved by minus the offset for every index, the intro included, so it moves up strictly as the line advances | not executed | `Renderer.StaleScrollAfterSeekBack` | `Renderer.IntendedTranslationDecreasing` |

`LyricList.SetOffset` keeps the as-written behaviour, since it models what the
page shows; `IntendedTranslation` states the corrected translation.
