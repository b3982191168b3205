/** Parsing of the lyrics text: `parseTime` (js/index.js:13-16) and
    `parseLyrics` (js/index.js:24-37). */
module Lyrics {
  import opened Wrappers
  import opened Strings
  import opened Numbers

  /** One parsed record `{time, content}`; `content` is None where the source
      reads `parts[1]` of a line without `]` and gets `undefined`. */
  datatype Lyric = Lyric(time: Num, content: Option<string>)

  /** `parseTime`: the first `:`-field as minutes and the second as seconds.
      A missing second field is `undefined`, which converts to NaN. */
  function ParseTime(timeStr: string): (t: Num)
    ensures ':' !in timeStr ==> t == NaN
  {
    var parts := Split(timeStr, ':');
    var seconds := if |parts| > 1 then ToNumber(parts[1]) else NaN;
    Add(Scale(ToNumber(parts[0]), 60.0), seconds)
  }

  /** For a timestamp made of `:`-separated fields (two or more), the value is
      sixty times the first field plus the second; later fields are ignored. */
  lemma ParseTimeOfFields(fields: seq<string>)
    requires |fields| >= 2
    requires forall i :: 0 <= i < |fields| ==> ':' !in fields[i]
    ensures ParseTime(Join(fields, ':')) == Add(Scale(ToNumber(fields[0]), 60.0), ToNumber(fields[1]))
  {
    SplitJoin(fields, ':');
  }

  /** A timestamp `mm:ss` whose fields hold no `:` is sixty times the first plus the second. */
  lemma ParseTimeMinutesSeconds(mm: string, ss: string)
    requires ':' !in mm && ':' !in ss
    ensures ParseTime(mm + ":" + ss) == Add(Scale(ToNumber(mm), 60.0), ToNumber(ss))
  {
    var fields := [mm, ss];
    assert Join(fields, ':') == mm + ":" + ss by {
      assert fields[1..] == [ss];
    }
    ParseTimeOfFields(fields);
  }

  /** `mm:` has an empty seconds field, and the empty string converts to 0:
      the value is sixty times the minutes. */
  lemma ParseTimeEmptySeconds(mm: string)
    requires ':' !in mm
    ensures ParseTime(mm + ":") == Scale(ToNumber(mm), 60.0)
  {
    assert mm + ":" + "" == mm + ":";
    ParseTimeMinutesSeconds(mm, "");
  }

  /** When both fields are numbers `x` and `y`, the result is `x * 60 + y` seconds. */
  lemma ParseTimeNumeric(mm: string, ss: string, x: real, y: real)
    requires ':' !in mm && ':' !in ss
    requires ToNumber(mm) == Val(x) && ToNumber(ss) == Val(y)
    ensures ParseTime(mm + ":" + ss) == Val(x * 60.0 + y)
  {
    ParseTimeMinutesSeconds(mm, ss);
  }

  /** The worked value `01:23.50`: eighty-three and a half seconds.
      (The string is a parameter so that the solver does not evaluate
      `ParseTime` on the literal step by step, which exhausts its budget.) */
  lemma ParseTimeExample(timeStr: string)
    requires timeStr == "01:23.50"
    ensures ParseTime(timeStr) == Val(83.5)
  {
    assert timeStr == "01" + ":" + "23.50";
    ToNumberExample();
    ParseTimeNumeric("01", "23.50", 1.0, 23.5);
  }

  /** The worked value `00:00`: zero seconds (a parameter, as above). */
  lemma ParseTimeZero(timeStr: string)
    requires timeStr == "00:00"
    ensures ParseTime(timeStr) == Val(0.0)
  {
    ToNumberZero();
    assert ':' !in "00";
    assert timeStr == "00" + ":" + "00";
    ParseTimeNumeric("00", "00", 0.0, 0.0);
  }

  /** The body of the `forEach` callback: split the line on `]`, drop the first
      character of the part before the first `]` and parse it as the time, and
      take the part between the first and the second `]` as the content. */
  function ParseLine(line: string): Lyric
  {
    var parts := Split(line, ']');
    var timeStr := DropFirst(parts[0]);
    Lyric(ParseTime(timeStr), if |parts| > 1 then Some(parts[1]) else None)
  }

  /** The content is undefined exactly when the line has no `]`, and content
      that is there never holds a `]`. */
  lemma ParseLineContent(line: string)
    ensures ParseLine(line).content.None? <==> ']' !in line
    ensures ParseLine(line).content.Some? ==> ']' !in ParseLine(line).content.value
  {
    SplitNoSeparator(line, ']');
  }

  /** A line `[ts]rest` (any first character stands for `[`): the time is parsed
      from `ts`, the content is `rest` up to its first `]`. */
  lemma ParseLineTagged(first: char, ts: string, rest: string)
    requires ']' !in ts && first != ']'
    ensures ParseLine([first] + ts + "]" + rest) == Lyric(ParseTime(ts), Some(Split(rest, ']')[0]))
  {
    assert ']' !in [first] + ts;
    SplitAfterFirst([first] + ts, ']', rest);
    assert ([first] + ts)[1..] == ts;
  }

  /** A well-formed line `[ts]text` whose text has no `]` keeps the whole text. */
  lemma ParseLineWellFormed(ts: string, text: string)
    requires ']' !in ts && ']' !in text
    ensures ParseLine("[" + ts + "]" + text) == Lyric(ParseTime(ts), Some(text))
  {
    ParseLineTagged('[', ts, text);
    assert Split(text, ']') == [text];
  }

  /** Text after a second `]` is lost: `[ts]a]b` has content `a`. */
  lemma ParseLineSecondBracket(ts: string, a: string, b: string)
    requires ']' !in ts && ']' !in a
    ensures ParseLine("[" + ts + "]" + a + "]" + b).content == Some(a)
  {
    assert "[" + ts + "]" + a + "]" + b == ['['] + ts + "]" + (a + "]" + b);
    ParseLineTagged('[', ts, a + "]" + b);
    SplitAfterFirst(a, ']', b);
  }

  /** A line without `]` has undefined content, and its time is read from the
      whole line minus its first character. */
  lemma ParseLineNoBracket(line: string)
    requires ']' !in line
    ensures ParseLine(line) == Lyric(ParseTime(DropFirst(line)), None)
  {
  }

  /** The empty line (an empty input, or what follows a trailing newline)
      gives a record with NaN time and undefined content. */
  lemma ParseLineEmpty()
    ensures ParseLine("") == Lyric(NaN, None)
  {
    ParseLineNoBracket("");
  }

  /** `f` applied to every element, in order. */
  function Map<A, B>(f: A -> B, s: seq<A>): (r: seq<B>)
    ensures |r| == |s|
    decreases |s|
  {
    if s == [] then [] else Map(f, s[..|s| - 1]) + [f(s[|s| - 1])]
  }

  /** Element `i` of the map is `f` of element `i`. */
  lemma {:induction false} MapIndex<A, B>(f: A -> B, s: seq<A>)
    ensures forall i :: 0 <= i < |s| ==> Map(f, s)[i] == f(s[i])
    decreases |s|
  {
    if s != [] {
      var init := s[..|s| - 1];
      MapIndex(f, init);
      forall i | 0 <= i < |s|
        ensures Map(f, s)[i] == f(s[i])
      {
        if i < |init| {
          assert s[i] == init[i];
        }
      }
    }
  }

  /** `parseLyrics`: one record per `\n`-separated segment, in input order. */
  method ParseLyrics(data: string) returns (arr: seq<Lyric>)
    ensures |arr| == multiset(data)['\n'] + 1
    ensures arr == Map(ParseLine, Split(data, '\n'))
    ensures forall i :: 0 <= i < |arr| ==> arr[i] == ParseLine(Split(data, '\n')[i])
  {
    arr := [];
    var lines := Split(data, '\n');
    for i := 0 to |lines|
      invariant arr == Map(ParseLine, lines[..i])
    {
      assert lines[..i + 1][..i] == lines[..i];
      arr := arr + [ParseLine(lines[i])];
    }
    assert lines[..|lines|] == lines;
    MapIndex(ParseLine, lines);
  }

  /** A trailing newline adds exactly one record, for the empty last segment. */
  lemma TrailingNewline(data: string)
    ensures Split(data + "\n", '\n') == Split(data, '\n') + [""]
    ensures ParseLine(Split(data + "\n", '\n')[|Split(data, '\n')|]) == Lyric(NaN, None)
  {
    SplitTrailingSeparator(data, '\n');
    ParseLineEmpty();
  }
}
