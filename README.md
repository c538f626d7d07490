# A Dafny model of CMDJojo/util

This project models the computational core of the Java utility library
`com.cmdjojo.util` and proves properties of it. The core is five classes.

- **`Time`** is a duration. It keeps two `long` fields, `millis` and `offset`, and its value is `millis - offset`.
  - Its `Unit` enum is a table of units built by chaining constructors.
  - `parse` reads text such as "1h 30m" into milliseconds.
  - `toString` writes a duration band by band, from days down to milliseconds.
- **`Kbdx.msToString`** writes a duration as years, days, hours, minutes, seconds and milliseconds, keeping at most `args` components. `Kbdx.contains` scans an `int[]` or a `long[]`.
- **`Stopwatch`** is a registry of named times. A map holds the times. A list holds the names in the order they were set.
  - `compare*` writes differences through `msToString`.
  - `compareNext*` builds a report from a pattern.
- **`ArrayUtil`** holds static helpers that build a new array from an old one with index loops. They cover `first`/`last`, `filter`/`arrayFilter`, `transform`/`arrayTransform`, `denullify`, `join`, `unbox`/`enbox`, `count`/`index`/`has`, `reverse` and hex encoding.
- **`TextTable`** is a mutable grid: a list of columns, each a map from row index to cell. `toString` renders it as padded, aligned rows.

The model follows the code's own form.

- Objects whose fields change are Dafny classes whose methods have `modifies` clauses: `Time`, `Stopwatch` and `TextTable`.
- Loops are methods with loop invariants, each proved against a specification function.
- The unit table, `calculateMillis`, `to`, `equals` and the text formats are functions.
- Java's semantics are written out in `JavaLang.dfy`:
  - `long` and `int` wrap-around;
  - division and remainder truncating toward zero;
  - `Long.toString` and `Long.parseLong`;
  - the character classes of the regular expression.
- Exceptions are values of `Result`/`Outcome`.

| file | models |
|---|---|
| `JavaLang.dfy` | Java integer ranges, wrap-around, truncating division, exceptions, `null`, decimal text |
| `TimeUnits.dfy` | `Time.Unit`: the constants, `get`, `max_id`, `min_id`, `parseUnit` |
| `TimeText.dfy` | `Time.parse` as an explicit tokenizer for its pattern, and the text `toString` writes |
| `TimeValue.dfy` | the `Time` object: constructors, mutators, `calculateMillis`, `to`, `equals`, `toString` |
| `Kbdx.dfy` | `Kbdx.msToString`, `Kbdx.contains` |
| `Stopwatch.dfy` | the `Stopwatch` class |
| `ArrayUtil.dfy` | the `ArrayUtil` helpers |
| `TextTable.dfy` | the `TextTable` class, and the dynamic-table test scenario |

## Model

| member | source | states |
|---|---|---|
| JavaLang.WrapLong | src/main/java/com/cmdjojo/util/Time.java:98 | Java `long` arithmetic: the result is a `long`, and equals the exact value when that is a `long` |
| JavaLang.WrapLongAdd | src/main/java/com/cmdjojo/util/Time.java:98 | wrapping an addend first does not change a wrapped sum |
| JavaLang.JDiv | src/main/java/com/cmdjojo/util/Time.java:921 | `/` on `long` truncates toward zero: the quotient has the dividend's sign and the remainder is smaller than the divisor |
| JavaLang.JRem | src/main/java/com/cmdjojo/util/Time.java:922 | `%` on `long`: dividend = quotient × divisor + remainder, with the remainder carrying the dividend's sign |
| JavaLang.JDivNeg | src/main/java/com/cmdjojo/util/Time.java:921-922 | negating the dividend negates the quotient and the remainder |
| JavaLang.JavaAbs | src/main/java/com/cmdjojo/util/Kbdx.java:57 | `Math.abs` is the magnitude for every `long` except `Long.MIN_VALUE`, which it returns unchanged |
| JavaLang.DigitsValueOfNatToString | src/main/java/com/cmdjojo/util/Kbdx.java:82 | reading back the decimal text of a natural number gives the number |
| JavaLang.ParseLongOfNatToString | src/main/java/com/cmdjojo/util/Time.java:97 | `Long.parseLong` accepts the decimal text of every non-negative `long` and returns it |
| TimeUnits.Values | src/main/java/com/cmdjojo/util/Time.java:945-1032 | `values()` lists the 18 constants in declaration order |
| TimeUnits.ValuesCoverAll | src/main/java/com/cmdjojo/util/Time.java:945-1032 | every constant occurs in `values()` |
| TimeUnits.DeclaredAttributes | src/main/java/com/cmdjojo/util/Time.java:1056-1089 | following the constructor chain (scale = base scale × amplifier, id = base id + 1, aliases copy) gives each constant id 0..4 and the scale 1, 1000, 60000, 3600000 or 86400000 |
| TimeUnits.UnitOrder | src/main/java/com/cmdjojo/util/Time.java:949-1032 | constants with equal ids carry equal attributes; one id is below another exactly when its scale is |
| TimeUnits.AliasOfCanonical | src/main/java/com/cmdjojo/util/Time.java:1070-1076 | every alias carries all the attributes of the first constant declared with its id |
| TimeUnits.CanonicalInfo | src/main/java/com/cmdjojo/util/Time.java:949-1024 | the canonical unit of each id has the chain scale and the labels "ms"/"millisecond"/"milliseconds" … "d"/"day"/"days" |
| TimeUnits.UnitWithId | src/main/java/com/cmdjojo/util/Time.java:1122-1125 | a unit exists for an id exactly when the id is in 0..4, and it is the canonical constant with that id and the chain scale |
| TimeUnits.Get | src/main/java/com/cmdjojo/util/Time.java:1122-1125 | the scan over `values()` returns the first constant with the id, which is the canonical one, or `null` outside 0..4 |
| TimeUnits.GetIsCanonical | src/main/java/com/cmdjojo/util/Time.java:1122-1125 | the first constant with a given id in declaration order is the canonical one |
| TimeUnits.MaxId | src/main/java/com/cmdjojo/util/Time.java:1097-1101 | the result bounds every id, is some constant's id, and is 4 |
| TimeUnits.MinId | src/main/java/com/cmdjojo/util/Time.java:1109-1113 | the result is below every id, is some constant's id, and is 0 |
| TimeUnits.NameInjective | src/main/java/com/cmdjojo/util/Time.java:945-1032 | no two constants share a name |
| TimeUnits.NameFacts | src/main/java/com/cmdjojo/util/Time.java:945-1032 | looking a constant's name up in `values()` finds that constant |
| TimeUnits.UnitNamedMatches | src/main/java/com/cmdjojo/util/Time.java:120-125 | a label names a constant exactly when it equals that constant's name ignoring case, and otherwise no constant matches |
| TimeUnits.ScanFindsNamed | src/main/java/com/cmdjojo/util/Time.java:121-123 | scanning constants in order finds the constant the label names |
| TimeUnits.ParseUnit | src/main/java/com/cmdjojo/util/Time.java:120-125 | succeeds iff some constant's name equals the label ignoring case, returns that constant, and otherwise throws IllegalArgumentException |
| TimeUnits.NoYearUnit | src/main/java/com/cmdjojo/util/Time.java:1021-1032 | the chain stops at days: "years" names no unit |
| TimeUnits.LabelsParse | src/main/java/com/cmdjojo/util/Time.java:927-930 | every label `toString` writes (short, singular, plural) names a unit with the scale of its band |
| TimeText.RunLen | src/main/java/com/cmdjojo/util/Time.java:89 | the longest prefix of digits and white space |
| TimeText.LastDigit | src/main/java/com/cmdjojo/util/Time.java:89 | the position of the last digit in a prefix, or none if the prefix holds no digit |
| TimeText.MatchHere | src/main/java/com/cmdjojo/util/Time.java:89 | a match found at the start of the text satisfies the pattern: a numeral ending in a digit, white space, then a maximal run of letters |
| TimeText.NumberText | src/main/java/com/cmdjojo/util/Time.java:93-95 | removing white space and replacing ',' by '.' leaves a numeral with no white space and no ',' |
| TimeText.NumberTextUnchanged | src/main/java/com/cmdjojo/util/Time.java:93-95 | a numeral without white space or ',' is left as it is |
| TimeText.Narrow | src/main/java/com/cmdjojo/util/Time.java:102 | a narrowing cast gives a value in range, and leaves unchanged a value already in range |
| TimeText.Parse | src/main/java/com/cmdjojo/util/Time.java:87-109 | the `find()` loop adds up each pair's contribution with `long` wrap-around, narrows a fractional product with `(int)` as written, and throws on an unknown unit; the result is a `long` and equals the specification `ParseWith(s, dbl, IntCast)` |
| TimeText.Find | src/main/java/com/cmdjojo/util/Time.java:91 | `find()` stops at the first position with a match, and the pairs still to come are unchanged |
| TimeText.PairsAtMatch | src/main/java/com/cmdjojo/util/Time.java:91-93 | at a match, `find()` reports group 1 and group 2 and resumes after the letters |
| TimeText.NoDigitsNoPairs | src/main/java/com/cmdjojo/util/Time.java:89-91 | text without a digit holds no pair |
| TimeText.ParseNoDigits | src/main/java/com/cmdjojo/util/Time.java:87-109 | text without a digit parses to 0 |
| TimeText.ParseIgnoresMinus | src/main/java/com/cmdjojo/util/Time.java:89 | a leading '-' does not change the result; the pattern has no sign |
| TimeText.ParseSkipsFiller | src/main/java/com/cmdjojo/util/Time.java:89-91 | text without digits in front of the rest, not ending in white space, is ignored |
| TimeText.UnknownUnitThrows | src/main/java/com/cmdjojo/util/Time.java:92 | if a pair's word names no unit and every earlier one does, the sum throws IllegalArgumentException |
| TimeText.ParseUnknownWord | src/main/java/com/cmdjojo/util/Time.java:120-125 | "5 years" throws IllegalArgumentException |
| TimeText.FractionNarrowing | src/main/java/com/cmdjojo/util/Time.java:100-102 | for a fractional numeral whose product is above `Integer.MAX_VALUE`, the `(int)` cast as written contributes `Integer.MAX_VALUE` while a `(long)` cast contributes the product |
| TimeText.FractionOfDays | src/main/java/com/cmdjojo/util/Time.java:100-102 | "30.5d" parses to 2147483647 as written, and to 2635200000 with the `(long)` cast |
| TimeText.PairsOfFraction | src/main/java/com/cmdjojo/util/Time.java:89 | the pattern reads "30.5d" as the single pair ("30.5", "d") |
| TimeText.Components | src/main/java/com/cmdjojo/util/Time.java:918-934 | the printed components lie in the bands between `min` and `i`, with ids in 0..4, strictly descending |
| TimeText.ComponentsCount | src/main/java/com/cmdjojo/util/Time.java:918 | a positive `elems` caps the number of components |
| TimeText.ComponentsNonEmpty | src/main/java/com/cmdjojo/util/Time.java:923 | when `min` is a unit id, at least one component is printed |
| TimeText.ComponentsRecombine | src/main/java/com/cmdjojo/util/Time.java:918-934 | with no cap and the bands down to milliseconds visited, the components add up to the time |
| TimeText.ComponentsSign | src/main/java/com/cmdjojo/util/Time.java:921-922 | every component has the sign of the time and none exceeds it |
| TimeText.ComponentsNegate | src/main/java/com/cmdjojo/util/Time.java:921-922 | a negated time prints the same components negated, because division truncates toward zero |
| TimeText.RenderParses | src/main/java/com/cmdjojo/util/Time.java:915-931 | `parse` reads back the total of non-negative components written with the default delimiters and either kind of label, with either narrowing cast |
| TimeText.FormatParses | src/main/java/com/cmdjojo/util/Time.java:910-936 | round trip: for a time ≥ 0 and `min ≤ 0 ≤ max`, `toString` succeeds and `parse` of its text returns the time, with the `(int)` cast as written and with `(long)` |
| TimeValue.Time.constructor | src/main/java/com/cmdjojo/util/Time.java:39-41 | `millis` is the argument and `offset` is 0 |
| TimeValue.Time.Zero | src/main/java/com/cmdjojo/util/Time.java:30-32 | both fields are 0 |
| TimeValue.Time.OfAmount | src/main/java/com/cmdjojo/util/Time.java:49-51 | `millis` is `amount × scale` with `long` wrap-around |
| TimeValue.Time.OfText | src/main/java/com/cmdjojo/util/Time.java:23-25 | succeeds iff `parse` as written does, with its exception otherwise; `millis` is the parsed value and `offset` is 0 |
| TimeValue.Time.OfParts | src/main/java/com/cmdjojo/util/Time.java:68-71 | starts at 0 and adds each non-null part's value in turn |
| TimeValue.Time.CalculateMillis | src/main/java/com/cmdjojo/util/Time.java:643-645 | `millis - offset` as a `long`; it is `millis` when there is no offset, and 0 when the offset is the current time |
| TimeValue.Time.To | src/main/java/com/cmdjojo/util/Time.java:656-658 | the whole number of units, truncated toward zero, for either sign |
| TimeValue.Time.Add | src/main/java/com/cmdjojo/util/Time.java:479-481 | `millis` grows by the amount with wrap-around; `offset` is unchanged |
| TimeValue.Time.AddAmount | src/main/java/com/cmdjojo/util/Time.java:460-462 | `millis` grows by `amount × scale`; `offset` is unchanged |
| TimeValue.Time.AddTime | src/main/java/com/cmdjojo/util/Time.java:450-452 | `millis` grows by the other time's value, read before the update; `offset` is unchanged |
| TimeValue.Time.Subtract | src/main/java/com/cmdjojo/util/Time.java:528-530 | `millis` shrinks by the amount; `offset` is unchanged |
| TimeValue.Time.SubtractAmount | src/main/java/com/cmdjojo/util/Time.java:509-511 | `millis` shrinks by `amount × scale`; `offset` is unchanged |
| TimeValue.Time.SubtractTime | src/main/java/com/cmdjojo/util/Time.java:499-501 | `millis` shrinks by the other time's value; `offset` is unchanged |
| TimeValue.Time.Set | src/main/java/com/cmdjojo/util/Time.java:577-579 | `millis` becomes the amount; `offset` is unchanged |
| TimeValue.Time.SetAmount | src/main/java/com/cmdjojo/util/Time.java:558-560 | `millis` becomes `amount × scale`; `offset` is unchanged |
| TimeValue.Time.SetTime | src/main/java/com/cmdjojo/util/Time.java:548-550 | `millis` becomes the other time's value; `offset` is unchanged |
| TimeValue.Time.SetOffset | src/main/java/com/cmdjojo/util/Time.java:633-635 | `offset` becomes the amount; `millis` is unchanged |
| TimeValue.Time.OffsetSelf | src/main/java/com/cmdjojo/util/Time.java:584-586 | `offset` becomes `millis`, so the value becomes 0 |
| TimeValue.Time.OffsetAmount | src/main/java/com/cmdjojo/util/Time.java:614-616 | `offset` becomes `amount × scale`; `millis` is unchanged |
| TimeValue.Time.OffsetTime | src/main/java/com/cmdjojo/util/Time.java:604-606 | `offset` becomes the other time's value; `millis` is unchanged |
| TimeValue.Time.ToString | src/main/java/com/cmdjojo/util/Time.java:910-936 | the band loop produces the specification `Format`: IllegalArgumentException for `min > max` or `elems == 0`, otherwise the rendered components |
| TimeValue.Time.ToStringDefault | src/main/java/com/cmdjojo/util/Time.java:816-818 | every band from milliseconds to days, short labels, empty bands shown, and never an exception |
| TimeValue.Time.ToStringUnits | src/main/java/com/cmdjojo/util/Time.java:863-865 | the `Unit` overload is the `int` overload at the units' ids |
| TimeValue.Bands | src/main/java/com/cmdjojo/util/Time.java:913-935 | the loop's builder is the rendering of the specification's components |
| TimeValue.AddSubtractInverse | src/main/java/com/cmdjojo/util/Time.java:479-530 | subtracting what was added restores `millis`, wrap-around included |
| TimeValue.StrictEqualsEquals | src/main/java/com/cmdjojo/util/Time.java:786-807 | `strictEquals` implies `equals` |
| TimeValue.Time.Equals | src/main/java/com/cmdjojo/util/Time.java:786-791 | `null` is never equal; a time equals itself, and equals every time whose `millis` minus `offset` is the same |
| TimeValue.Time.StrictEquals | src/main/java/com/cmdjojo/util/Time.java:801-807 | a time is strictly equal to itself, and strict equality implies `equals` |
| TimeValue.EqualsIgnoresOffset | src/main/java/com/cmdjojo/util/Time.java:786-807 | times whose fields differ by the same amount are `equals`, and `strictEquals` iff their `millis` agree too |
| TimeValue.EqualsEquivalence | src/main/java/com/cmdjojo/util/Time.java:786-791 | `equals` is reflexive, symmetric and transitive |
| TimeValue.ToTruncates | src/main/java/com/cmdjojo/util/Time.java:656-658 | 1900 ms is 1 second and -1900 ms is -1 second |
| TimeValue.ToSymmetric | src/main/java/com/cmdjojo/util/Time.java:656-658 | `to` truncates toward zero: opposite times hold opposite numbers of every unit |
| TimeValue.DefaultToStringParses | src/main/java/com/cmdjojo/util/Time.java:816-818 | `new Time(t.toString())`, with `parse` as written, has the value of `t` for every time ≥ 0 |
| Kbdx.Bands | src/main/java/com/cmdjojo/util/Kbdx.java:57-67 | the division chain yields six bands |
| Kbdx.MsToString | src/main/java/com/cmdjojo/util/Kbdx.java:51-102 | the step-by-step divisions, level tests and appends compute the specification `MsText` |
| Kbdx.Divide | src/main/java/com/cmdjojo/util/Kbdx.java:57-67 | the chain of divisions and remainders yields the six bands of the magnitude |
| Kbdx.LevelOf | src/main/java/com/cmdjojo/util/Kbdx.java:69-79 | the level tests pick the largest band that is not zero |
| Kbdx.MsTextIs | src/main/java/com/cmdjojo/util/Kbdx.java:51-102 | the text is an optional '-' followed by the space-joined components of `Math.abs(input)` |
| Kbdx.BandsRecombine | src/main/java/com/cmdjojo/util/Kbdx.java:57-67 | ms < 1000, s < 60, m < 60, h < 24, d < 365, y ≥ 0, and the bands recombine to the magnitude |
| Kbdx.LevelIsTop | src/main/java/com/cmdjojo/util/Kbdx.java:69-79 | the level's band is positive and every larger band is not |
| Kbdx.PartsShape | src/main/java/com/cmdjojo/util/Kbdx.java:81-97 | exactly `min(args, level + 1)` consecutive components are printed, from the level's band downward, zero bands between them included |
| Kbdx.MsTextArgs | src/main/java/com/cmdjojo/util/Kbdx.java:52-56 | `args == -1` means 6, and the call throws IndexOutOfBoundsException iff `args` is otherwise outside 1..6 |
| Kbdx.MsTextNegative | src/main/java/com/cmdjojo/util/Kbdx.java:99 | a negative input is "-" followed by the text of its magnitude |
| Kbdx.MsTextBelowSecond | src/main/java/com/cmdjojo/util/Kbdx.java:96-97 | below one second the text is the single component "<n>ms" |
| Kbdx.OnlyMilliseconds | src/main/java/com/cmdjojo/util/Kbdx.java:69-97 | a magnitude whose bands are all 0 except milliseconds prints only that band |
| Kbdx.MsTextAgrees | src/main/java/com/cmdjojo/util/Kbdx.java:57 | the code and the corrected text agree on every input but `Long.MIN_VALUE` |
| Kbdx.MinValueDoubleSign | src/main/java/com/cmdjojo/util/Kbdx.java:57-99 | `msToString(Long.MIN_VALUE)` as written is "--808ms" |
| Kbdx.FixedSingleSign | src/main/java/com/cmdjojo/util/Kbdx.java:57-99 | with the exact magnitude the text has at most one '-', at its front, and only for a negative input |
| Kbdx.MinuteExample | src/test/java/com/cmdjojo/util/KbdxTest.java:25-27 | 68603 is "1m 8s 603ms", "1m" with args 1, "1m 8s" with args 2 |
| Kbdx.ThreeMinutesExample | src/test/java/com/cmdjojo/util/StopwatchTest.java:84 | 220300 is "3m 40s 300ms" |
| Kbdx.NegativeYearExample | src/test/java/com/cmdjojo/util/KbdxTest.java:43 | -32061784125 with args 2 is "-1y 6d" |
| Kbdx.Contains | src/main/java/com/cmdjojo/util/Kbdx.java:549-572 | true iff some element equals the target |
| Stopwatch.IndexOf | src/main/java/com/cmdjojo/util/Stopwatch.java:302-304 | the first position holding the name, or -1 exactly when it is absent |
| Stopwatch.RemoveFirst | src/main/java/com/cmdjojo/util/Stopwatch.java:35-38 | the list loses one occurrence of the name if it has one, and nothing else |
| Stopwatch.RemoveFirstAt | src/main/java/com/cmdjojo/util/Stopwatch.java:37 | the list is cut at the first occurrence, the rest kept in order, or left alone when the name is absent |
| Stopwatch.RemoveFirstKeeps | src/main/java/com/cmdjojo/util/Stopwatch.java:37 | every other name stays in or out of the list |
| Stopwatch.CompareMs | src/main/java/com/cmdjojo/util/Stopwatch.java:167-171 | the difference is a `long` |
| Stopwatch.Compare | src/main/java/com/cmdjojo/util/Stopwatch.java:292-294 | `msToString` of the difference, whichever time comes first; throws IndexOutOfBoundsException iff `args` is neither -1 nor 1..6; between non-negative times it is the corrected text of their distance |
| Stopwatch.CompareMsDistance | src/main/java/com/cmdjojo/util/Stopwatch.java:167-171 | for non-negative times the difference is their distance, and it is non-negative |
| Stopwatch.CompareMsSymmetric | src/main/java/com/cmdjojo/util/Stopwatch.java:167-171 | the order of the two times does not matter |
| Stopwatch.CompareMsOverflow | src/main/java/com/cmdjojo/util/Stopwatch.java:167-171 | times of opposite sign can overflow: 0 and `Long.MIN_VALUE` give `Long.MIN_VALUE` |
| Stopwatch.CompareThreeMinutes | src/test/java/com/cmdjojo/util/StopwatchTest.java:77-84 | two times 220300 ms apart compare as "3m 40s 300ms", either way round |
| Stopwatch.CompareSame | src/test/java/com/cmdjojo/util/StopwatchTest.java:81 | equal times compare as "0ms" for every accepted `args` |
| Stopwatch.Next | src/main/java/com/cmdjojo/util/Stopwatch.java:322-326 | `keys[index + 1]` iff `index` is not -1 and `index + 1 < size`, else `null`; -2 and below, and `Integer.MAX_VALUE`, throw IndexOutOfBoundsException |
| Stopwatch.Stopwatch.constructor | src/main/java/com/cmdjojo/util/Stopwatch.java:21-22 | no timers and no names |
| Stopwatch.Stopwatch.Remove | src/main/java/com/cmdjojo/util/Stopwatch.java:35-38 | the timer is gone and the list loses the name's first occurrence; every name with a timer is still in the list |
| Stopwatch.Stopwatch.Set | src/main/java/com/cmdjojo/util/Stopwatch.java:67-72 | a negative time throws IndexOutOfBoundsException and changes nothing; otherwise the timer is written and the name appended, even if already present |
| Stopwatch.Stopwatch.Get | src/main/java/com/cmdjojo/util/Stopwatch.java:81-85 | the stored time, a non-negative `long`, or 0 for a name that is not set |
| Stopwatch.Stopwatch.MatchesValue | src/main/java/com/cmdjojo/util/Stopwatch.java:95-97 | true iff the timer is set and holds the value |
| Stopwatch.Stopwatch.MatchesTimer | src/main/java/com/cmdjojo/util/Stopwatch.java:107-109 | true iff both timers are set and hold the same time |
| Stopwatch.Stopwatch.CompareMsTimers | src/main/java/com/cmdjojo/util/Stopwatch.java:131-133 | the distance between two timers, an unset one counting as 0 |
| Stopwatch.Stopwatch.CompareTimers | src/main/java/com/cmdjojo/util/Stopwatch.java:217-219 | the same text either way round, throwing iff `args` is rejected, and equal to the corrected `msToString` of the timers' distance |
| Stopwatch.Stopwatch.GetNext | src/main/java/com/cmdjojo/util/Stopwatch.java:312-314 | the name after the first occurrence, or `null` iff the name is absent or last |
| Stopwatch.Stopwatch.CompareNext | src/main/java/com/cmdjojo/util/Stopwatch.java:359-364 | "" when there is no next name; otherwise it throws, always IndexOutOfBoundsException, iff `args` is neither -1 nor 1..6 |
| Stopwatch.Stopwatch.CompareNextDefault | src/main/java/com/cmdjojo/util/Stopwatch.java:334-336 | as written: "" without a next name, IndexOutOfBoundsException with one |
| Stopwatch.Stopwatch.CompareNextAllDefault | src/main/java/com/cmdjojo/util/Stopwatch.java:371-373 | as written: IndexOutOfBoundsException with two or more names, StringIndexOutOfBoundsException with fewer |
| Stopwatch.Stopwatch.CompareNextAll | src/main/java/com/cmdjojo/util/Stopwatch.java:395-401 | the loop computes the specification: each name's line and a newline, the first exception, then the last two characters cut |
| Stopwatch.Stopwatch.CompareNextAllLines | src/main/java/com/cmdjojo/util/Stopwatch.java:395-401 | when the last name occurs once, the report is the earlier lines joined by newlines, with no newline at the end |
| Stopwatch.Stopwatch.FewNamesThrow | src/main/java/com/cmdjojo/util/Stopwatch.java:400 | with at most one name, cutting two characters throws StringIndexOutOfBoundsException |
| Stopwatch.Stopwatch.CompareNextDefaultThrows | src/main/java/com/cmdjojo/util/Stopwatch.java:334-336 | `compareNext(name)` as written is "" without a next name and throws IndexOutOfBoundsException otherwise |
| Stopwatch.Stopwatch.CompareNextDefaultFixedText | src/main/java/com/cmdjojo/util/Stopwatch.java:359-364 | with `args` -1, `compareNext(name)` is "<name> => <next> took <all components>" |
| Stopwatch.Stopwatch.CompareNextAllDefaultThrows | src/main/java/com/cmdjojo/util/Stopwatch.java:371-373 | `compareNextAll()` as written always throws |
| Stopwatch.Stopwatch.CompareNextAllDefaultFixedOk | src/main/java/com/cmdjojo/util/Stopwatch.java:382-401 | with `args` -1, `compareNextAll()` succeeds whenever there are two names; when the last name occurs once, the text followed by a newline is the lines of the other names |
| Stopwatch.Stopwatch.LinesStep | src/main/java/com/cmdjojo/util/Stopwatch.java:396-398 | one turn of the loop appends the name's line and a newline, or stops at its exception |
| Stopwatch.SetAfterRemoveIsLast | src/test/java/com/cmdjojo/util/StopwatchTest.java:42-61 | after `remove` and `set` again, the name is last in the list and has no next name |
| Stopwatch.DefaultPatternText | src/main/java/com/cmdjojo/util/Stopwatch.java:20 | for names without '%', the default pattern becomes "<name> => <next> took <text>" |
| ArrayUtil.First | src/main/java/com/cmdjojo/util/ArrayUtil.java:111-116 | `null` iff no element passes the filter; otherwise the first element that passes |
| ArrayUtil.FirstPresent | src/main/java/com/cmdjojo/util/ArrayUtil.java:97-99 | the first non-null element, or `null` iff all are null |
| ArrayUtil.LastAsWritten | src/main/java/com/cmdjojo/util/ArrayUtil.java:141-146 | as written: the last element if it passes, `null` for an empty array, and otherwise ArrayIndexOutOfBoundsException |
| ArrayUtil.Last | src/main/java/com/cmdjojo/util/ArrayUtil.java:141-146 | counting down: `null` iff no element passes; otherwise the last element that passes |
| ArrayUtil.Compact | src/main/java/com/cmdjojo/util/ArrayUtil.java:209-217 | the second pass copies the flagged elements, in order |
| ArrayUtil.Filter | src/main/java/com/cmdjojo/util/ArrayUtil.java:201-218 | a new array holding exactly the accepted elements, in their order |
| ArrayUtil.ArrayFilter | src/main/java/com/cmdjojo/util/ArrayUtil.java:274-291 | as `filter`, with each element's original index passed to the filter |
| ArrayUtil.KeptCount | src/main/java/com/cmdjojo/util/ArrayUtil.java:201-218 | as many kept as accepted; empty iff none accepted; the whole array if all are accepted |
| ArrayUtil.KeptMembers | src/main/java/com/cmdjojo/util/ArrayUtil.java:201-218 | an element is kept iff it is accepted at some index that holds it |
| ArrayUtil.FilterOrder | src/main/java/com/cmdjojo/util/ArrayUtil.java:201-218 | filtering a concatenation filters each part, so order is kept |
| ArrayUtil.ArrayFilterExample | src/test/java/com/cmdjojo/util/ArrayUtilTest.java:79-118 | odd positions with three or four characters give ["deE", "skAD"] |
| ArrayUtil.TransformFrom | src/main/java/com/cmdjojo/util/ArrayUtil.java:441-453 | `null` before `index`, the given element at `index`, and the transformer's value after it |
| ArrayUtil.ArrayTransform | src/main/java/com/cmdjojo/util/ArrayUtil.java:389-398 | when every later result fits the first non-null result's class: throws IllegalArgumentException iff the transformer gives `null` everywhere, and otherwise gives each element transformed with its index |
| ArrayUtil.ArrayTransformTo | src/main/java/com/cmdjojo/util/ArrayUtil.java:416-419 | with the class given, each element transformed with its index |
| ArrayUtil.Transform | src/main/java/com/cmdjojo/util/ArrayUtil.java:308-317 | as `arrayTransform`, with a transformer that ignores the index, again when every later result fits the first non-null result's class |
| ArrayUtil.TransformTo | src/main/java/com/cmdjojo/util/ArrayUtil.java:335-338 | each element transformed |
| ArrayUtil.Denullify | src/main/java/com/cmdjojo/util/ArrayUtil.java:498-507 | a new array of the non-null elements, in their order |
| ArrayUtil.PresentMembers | src/main/java/com/cmdjojo/util/ArrayUtil.java:498-507 | a value survives iff it was in the array |
| ArrayUtil.PresentAllOrNothing | src/main/java/com/cmdjojo/util/ArrayUtil.java:498-507 | the result is empty iff all elements are null, and keeps every element when none is |
| ArrayUtil.PresentAppend | src/main/java/com/cmdjojo/util/ArrayUtil.java:498-507 | the nulls are removed part by part, so order is kept |
| ArrayUtil.Join | src/main/java/com/cmdjojo/util/ArrayUtil.java:617-626 | `before`, the elements' texts ("null" for `null`) separated by the delimiter, then `after`; a `null` delimiter, prefix or suffix is omitted |
| ArrayUtil.JoinList | src/main/java/com/cmdjojo/util/ArrayUtil.java:585-587 | "[" + elements separated by ", " + "]" |
| ArrayUtil.JoinWith | src/main/java/com/cmdjojo/util/ArrayUtil.java:600-602 | the elements separated by the delimiter, with no prefix or suffix |
| ArrayUtil.JoinedSnoc | src/main/java/com/cmdjojo/util/ArrayUtil.java:620-623 | a delimiter goes before every element but the first |
| ArrayUtil.JoinedLength | src/main/java/com/cmdjojo/util/ArrayUtil.java:617-626 | the length is the texts' lengths plus one delimiter per gap |
| ArrayUtil.JoinExamples | src/test/java/com/cmdjojo/util/ArrayUtilTest.java:255-282 | "[213, 342, 435]", "$213-342-435?", and a `null` element written "null" |
| ArrayUtil.Unbox | src/main/java/com/cmdjojo/util/ArrayUtil.java:654-661 | each value kept, with `def` for `null` |
| ArrayUtil.UnboxInts | src/main/java/com/cmdjojo/util/ArrayUtil.java:640-642 | `null` becomes 0 |
| ArrayUtil.Enbox | src/main/java/com/cmdjojo/util/ArrayUtil.java:899-905 | the same values, boxed, and the same length |
| ArrayUtil.UnboxEnbox | src/main/java/com/cmdjojo/util/ArrayUtil.java:654-905 | unboxing what was boxed gives the values back |
| ArrayUtil.EnboxUnbox | src/main/java/com/cmdjojo/util/ArrayUtil.java:654-905 | boxing what was unboxed gives the array back iff it held no `null` |
| ArrayUtil.Count | src/main/java/com/cmdjojo/util/ArrayUtil.java:1029-1034 | the number of elements equal to the target |
| ArrayUtil.Index | src/main/java/com/cmdjojo/util/ArrayUtil.java:1170-1175 | the first position holding the target, or -1 iff it is absent |
| ArrayUtil.Has | src/main/java/com/cmdjojo/util/ArrayUtil.java:1311-1313 | true iff the target occurs, that is iff its count is positive |
| ArrayUtil.Reverse | src/main/java/com/cmdjojo/util/ArrayUtil.java:1655-1663 | a new array of the same length with element `i` at `n - i - 1` |
| ArrayUtil.ReversedTwice | src/main/java/com/cmdjojo/util/ArrayUtil.java:1655-1663 | reversing twice gives the array back |
| ArrayUtil.Unsigned | src/main/java/com/cmdjojo/util/ArrayUtil.java:1858 | the value `%02x` prints for a byte is in 0..255 and congruent to it |
| ArrayUtil.HexByteRoundTrip | src/main/java/com/cmdjojo/util/ArrayUtil.java:1854-1860 | reading the two hex digits back gives the unsigned byte, in either case |
| ArrayUtil.HexByteCase | src/main/java/com/cmdjojo/util/ArrayUtil.java:1854-1860 | the upper-case form is the lower-case form upper-cased |
| ArrayUtil.ToHexArray | src/main/java/com/cmdjojo/util/ArrayUtil.java:1854-1860 | a new array with each byte's two hex digits |
| ArrayUtil.ToHexString | src/main/java/com/cmdjojo/util/ArrayUtil.java:1881-1889 | the hex forms joined with no delimiter |
| ArrayUtil.HexStringRoundTrip | src/main/java/com/cmdjojo/util/ArrayUtil.java:1881-1889 | two characters per byte, and reading the string back gives the unsigned bytes |
| ArrayUtil.HexExample | src/test/java/com/cmdjojo/util/ArrayUtilTest.java:658-690 | the test bytes give "ffa332aa0e" and "FFA332AA0E" |
| TextTable.Empties | src/main/java/com/cmdjojo/util/TextTable.java:186-188 | `n` new, empty columns |
| TextTable.MaxOf | src/main/java/com/cmdjojo/util/TextTable.java:39-55 | the largest of a set and a floor |
| TextTable.Padded | src/main/java/com/cmdjojo/util/TextTable.java:246-248 | a cell is padded to the width unless it is already that wide |
| TextTable.RowTexts | src/main/java/com/cmdjojo/util/TextTable.java:241-242 | there are exactly highest-index + 1 rows |
| TextTable.PaddedToWidth | src/main/java/com/cmdjojo/util/TextTable.java:245-248 | every cell is padded to exactly its column's widest length |
| TextTable.RowLength | src/main/java/com/cmdjojo/util/TextTable.java:244-251 | every row has the same length: the columns' widths plus one splitter each, so the columns line up |
| TextTable.HighestAfterWrite | src/main/java/com/cmdjojo/util/TextTable.java:141 | writing a cell raises the highest row index to the row if it is above |
| TextTable.HighestOfBlank | src/main/java/com/cmdjojo/util/TextTable.java:47-55 | a table of empty columns has highest index 0 |
| TextTable.HighestAfterGrow | src/main/java/com/cmdjojo/util/TextTable.java:184-188 | appending empty columns leaves the highest index alone |
| TextTable.HighestAfterPrune | src/main/java/com/cmdjojo/util/TextTable.java:204-212 | after `pruneRows(rows)` with `rows > 0`, no row index reaches `rows` |
| TextTable.CellAfterDrop | src/main/java/com/cmdjojo/util/TextTable.java:165-212 | a removed row reads as "" and every other cell is unchanged |
| TextTable.Without | src/main/java/com/cmdjojo/util/TextTable.java:169-170 | a column keeps exactly the rows not dropped, with their cells |
| TextTable.Dropped | src/main/java/com/cmdjojo/util/TextTable.java:168-172 | every column, same count, with the dropped rows removed |
| TextTable.RemoveKeys | src/main/java/com/cmdjojo/util/TextTable.java:169-171 | the loop over a column's keys removes exactly the dropped rows |
| TextTable.Pad | src/main/java/com/cmdjojo/util/TextTable.java:246-248 | the padding loop yields the padded cell |
| TextTable.Widest | src/main/java/com/cmdjojo/util/TextTable.java:39-45 | the longest cell's length, 0 for an empty column |
| TextTable.HighestIndex | src/main/java/com/cmdjojo/util/TextTable.java:47-55 | the largest row index used in any column, 0 when there is none |
| TextTable.TextTable.constructor | src/main/java/com/cmdjojo/util/TextTable.java:21-23 | a dynamic table without columns, filled with ' ' and split by " " |
| TextTable.TextTable.Create | src/main/java/com/cmdjojo/util/TextTable.java:33-37 | throws IllegalArgumentException iff the width is negative; otherwise a static table of exactly `width` empty columns |
| TextTable.TextTable.SetDynamic | src/main/java/com/cmdjojo/util/TextTable.java:73-76 | only the dynamic flag changes |
| TextTable.TextTable.SetFiller | src/main/java/com/cmdjojo/util/TextTable.java:96-99 | only the filler changes |
| TextTable.TextTable.SetColumnsplitter | src/main/java/com/cmdjojo/util/TextTable.java:119-122 | only the splitter changes |
| TextTable.TextTable.Grow | src/main/java/com/cmdjojo/util/TextTable.java:184-188 | empty columns are appended up to the width |
| TextTable.TextTable.SetWidth | src/main/java/com/cmdjojo/util/TextTable.java:182-196 | as written: a negative width throws; a wider width appends empty columns; a narrower one removes the last column, then throws IndexOutOfBoundsException |
| TextTable.TextTable.SetWidthFixed | src/main/java/com/cmdjojo/util/TextTable.java:182-196 | corrected: a narrower width keeps exactly the first `width` columns |
| TextTable.TextTable.Set | src/main/java/com/cmdjojo/util/TextTable.java:132-143 | succeeds iff column and row are non-negative and either the column exists or the table is dynamic and `col` is below `Integer.MAX_VALUE` (there `col + 1` wraps to a negative width, so `set(Integer.MAX_VALUE, 0, v)` throws even on a dynamic table); a dynamic table grows to `col + 1` columns; only cell (col,row) changes; the highest index becomes the max of the old one and the row; failures throw IllegalArgumentException and change nothing |
| TextTable.TextTable.RemoveColumn | src/main/java/com/cmdjojo/util/TextTable.java:151-157 | fails iff the column is out of bounds, or the table is static and already has `Integer.MAX_VALUE` columns (there `data.size() + 1` wraps); a dynamic table loses the column; a static table keeps its column count, with an empty column at the end |
| TextTable.TextTable.RemoveRow | src/main/java/com/cmdjojo/util/TextTable.java:165-174 | fails iff the row is negative or above the highest index; otherwise that row is removed from every column |
| TextTable.TextTable.PruneRows | src/main/java/com/cmdjojo/util/TextTable.java:204-212 | fails iff `rows < 0`; otherwise every row at or beyond `rows` is removed, so the highest index is below `rows` |
| TextTable.DropAsWrittenOutcome | src/main/java/com/cmdjojo/util/TextTable.java:168-171 | the loop as written throws ConcurrentModificationException iff some column visits a removed key before its last key; otherwise it removes exactly what the corrected loop removes |
| TextTable.DropColumnOutcome | src/main/java/com/cmdjojo/util/TextTable.java:206-209 | one column of the loop as written: it throws iff a removed key is visited before the last key, and otherwise loses exactly the accepted keys |
| TextTable.FirstDropped | src/main/java/com/cmdjojo/util/TextTable.java:169-170 | the first visited key the test accepts, with every earlier one rejected |
| TextTable.RemoveRowAsWrittenThrows | src/main/java/com/cmdjojo/util/TextTable.java:165-174 | after `set(0, 0, "a")` and `set(0, 1, "b")`, `removeRow(0)` as written throws ConcurrentModificationException |
| TextTable.RemoveLastVisitedPasses | src/test/java/com/cmdjojo/util/TextTableTest.java:33-35 | `removeRow(43)` on a column holding rows 1 and 43 ends normally, because 43 is visited last |
| TextTable.PruneTwoBlocked | src/main/java/com/cmdjojo/util/TextTable.java:204-212 | a column with two keys at or beyond `rows` makes `pruneRows(rows)` as written throw, whatever the visiting order |
| TextTable.TextTable.DropAll | src/main/java/com/cmdjojo/util/TextTable.java:168-172 | every column loses the dropped rows |
| TextTable.TextTable.Columns | src/main/java/com/cmdjojo/util/TextTable.java:219-221 | the number of columns |
| TextTable.TextTable.Rows | src/main/java/com/cmdjojo/util/TextTable.java:228-230 | the highest row index in use, not a count |
| TextTable.TextTable.ToString | src/main/java/com/cmdjojo/util/TextTable.java:239-256 | the rows 0..highest, each cell padded to its column's width and followed by the splitter, joined by '\n' with none after the last |
| TextTable.TextTable.RowOf | src/main/java/com/cmdjojo/util/TextTable.java:243-251 | the row builder holds the row's padded cells and splitters |
| TextTable.LineStep | src/main/java/com/cmdjojo/util/TextTable.java:252-253 | after each row, '\n' unless it is the last |
| TextTableExample.DynamicExample | src/test/java/com/cmdjojo/util/TextTableTest.java:10-24 | the test's sequence of calls on a table renders as the five rows the test expects |
| TextTableExample.DynamicStart | src/test/java/com/cmdjojo/util/TextTableTest.java:10-14 | after `set(0, 0, "1")`, `setDynamic(true)`, `set(4, 0, "SE")` and `removeColumn(4)` the table has four columns, only the first holding a cell |
| TextTableExample.DynamicFinish | src/test/java/com/cmdjojo/util/TextTableTest.java:15-17 | the three later `set` calls leave the columns the rendering starts from |
| TextTableExample.DynamicRender | src/test/java/com/cmdjojo/util/TextTableTest.java:18-22 | the text of the table the scenario builds |

## Left out

- Floating point is not modelled:
  - the `double` constructors of `Time`, and `add`/`subtract`/`set`/`offset(double, Unit)`;
  - the float and double overloads in `ArrayUtil`;
  - `Kbdx.floor`, `ceil`, `round` and `average`.
- The decimal branch of `Time.parse` multiplies by `Double.parseDouble(numstr)`. That product is the parameter `dbl` of `TimeText.Parse`. `dbl` stands for that product truncated to an integer, and the model places no constraint on it. Its `NumberFormatException` path is unreachable, because group 1 of the pattern is always a valid decimal.
- TimeText.Parse: states nothing about the size of `dbl`'s result beyond what the narrowing cast keeps, because floating-point rounding is not modelled.
- TextTable.Widest, TextTable.Pad, TextTable.Padded and Stopwatch.Stopwatch.CompareNextAllText: Java's `String.length()` and `substring` count UTF-16 code units, while a Dafny string counts characters. They differ for characters outside the Basic Multilingual Plane. Such a character would count as two toward a column's width, and the two-character cut of `compareNextAll` could split it.
- ArrayUtil.Filter, ArrayUtil.ArrayFilter, ArrayUtil.Transform and ArrayUtil.ArrayTransform: filters and transformers are pure functions here. The source promises to run each callback once per element, in order. That matters only for callbacks with side effects, which a pure function cannot have.
- The clock, randomness and output are not modelled:
  - `Time.now`, `nowOffset` and `main`;
  - `Stopwatch.set(name)`, `compare(name)`, `compareMs(name)` and the `Date` overloads, which read the clock (times are passed in as values instead);
  - `Kbdx.random`, `ArrayUtil.random` and `shuffle`;
  - `Kbdx.newline`, and the dialog and prompt methods of `Kbdx`.
- `Time.add`/`subtract`/`set`/`offset(String)` are not modelled separately. Each calls `parse` and then the `long` overload, and both of those are modelled.
- The `toString(Unit, Unit)`, `toString(int, int)` and five-argument `toString` overloads of `Time` are not modelled separately. They pass `-1`, `true`, `true`, `null`, `null` to the full overload, which `ToString` and `ToStringUnits` take as parameters.
- `Time.equals` and `strictEquals` are modelled for `Time` arguments and `null`. An argument of another class is not modelled; the code returns false for it.
- TimeValue.Time.ToString: requires `min > Integer.MIN_VALUE`. The loop counter's wrap-around below `Integer.MIN_VALUE` is not modelled.
- `Kbdx.contains(Object[])` is not modelled, because it calls `equals` on elements that may be `null`.
- Arrays are never `null` in Dafny, so these are not modelled:
  - the IllegalArgumentException of `first`/`last` on a `null` array;
  - the NullPointerException of the other helpers.
- The `Class` parameters and reflection of `ArrayUtil` (`Array.newInstance`, `getComponentType`) are replaced by generic arrays. The `Class` overloads of `transform` and `arrayTransform` are `TransformTo` and `ArrayTransformTo`. The `Class` overloads of `filter`, `arrayFilter` and `denullify` behave like the others.
- ArrayUtil.ArrayTransform and ArrayUtil.Transform: the ArrayStoreException of the code is not modelled. The result array is created with `Array.newInstance(o.getClass(), n)`, where `o` is the first non-null result (ArrayUtil.java:316, 362, 397, 443). A later result whose class does not fit that one throws ArrayStoreException. For example, `transform(new Object[]{1, "a"}, x -> x)` creates an `Integer[]` and fails storing "a". The model has no runtime classes and returns the mapped array there.
- `ArrayUtil.consume` and `arrayConsume` are not modelled; they exist only for the callbacks' side effects.
- The `long`, `byte`, `short`, `char` and `boolean` overloads of `unbox`/`enbox`/`count`/`index`/`has`/`reverse` are not modelled separately. They are the same loop on another element type, and the model is generic in the element type.
- `ArrayUtil.join` takes each element's `toString()` as given: elements are nullable strings.
- Java's own library code is not modelled: `HashMap`, `ArrayList`, `StringBuilder` and `String.format`. Its behaviour is stated as maps, sequences and strings.
- The iteration order of a `HashMap` is not computed from hash codes. `widest`, `highestIndex`, `removeRow` and `pruneRows` are proved for every order in which the keys can be visited. `TextTable.DropAsWritten` takes each column's visiting order as a parameter.
- TextTable.TextTable.RemoveRow: models the intended removal. The code calls `t.remove(i)` inside `for (Integer i : t.keySet())`, so the iterator's next `next()` throws ConcurrentModificationException. The loop survives only if the removed key is the last one visited in its column. With small keys a `HashMap` visits them in ascending order, so `removeRow(row)` throws whenever a column also holds a row above `row`. The as-written loop is `TextTable.DropAsWritten` (see Findings).
- TextTable.TextTable.PruneRows: models the intended removal. The code removes keys during the same kind of loop, so it throws whenever a column holds two keys at or beyond `rows` (`TextTable.PruneTwoBlocked`), or one that is not visited last.
- TextTable.TextTable.ToString: requires the highest row index below `Integer.MAX_VALUE`. At that index the code's `c <= l` loop never ends.
- A `null` column splitter is not modelled; Java's `StringBuilder` would append "null".
- Null strings are not modelled where the source accepts them, because cell values and timer names are plain strings here:
  - `TextTable.set(col, row, null)` stores a `null` cell (TextTable.java:141). The next `toString` throws NullPointerException, either in `widest` (`s.length()`, line 42) or at `new StringBuilder(item)` (line 246).
  - `Stopwatch.set(null, time)` is accepted, because `HashMap` and `ArrayList` take `null`. A later `compareNext(null, …)` throws NullPointerException in `pattern.replace("%A%", name)` (Stopwatch.java:363).
- `TextTable.getDynamic`, `getFiller` and `getColumnsplitter` are not modelled; they are field reads. Neither is the `return this` of the setters, which only enables chaining.
- Stopwatch.Stopwatch.Set: requires fewer than `Integer.MAX_VALUE` names, the capacity of an `ArrayList`.
- `Stopwatch.iterator()` returns the list's iterator. It is modelled as the sequence `keys` itself.
- Loggers, locks and the dialog package are not part of this model: `RootLogger`, `SubLogger`, `ObjectLocker` and `dialog/*`.

## Findings

| source | as written | input that shows it | evidently intended | confidence | as-written member | corrected member |
|---|---|---|---|---|---|---|
| src/main/java/com/cmdjojo/util/Time.java:102 | the fractional product is cast to `int`, so it saturates at 2147483647 | `Time.parse("30.5d")` returns 2147483647 | the 2635200000 ms of 30.5 days, as the `long` branch at line 98 would give | not executed | TimeText.FractionOfDays | TimeText.FractionNarrowing |
| src/main/java/com/cmdjojo/util/Kbdx.java:57 | `Math.abs(Long.MIN_VALUE)` is negative, so every band is ≤ 0 and the sign is written twice | `msToString(Long.MIN_VALUE)` returns "--808ms" | a single leading '-' followed by the magnitude's components | not executed | Kbdx.MinValueDoubleSign | Kbdx.FixedSingleSign |
| src/main/java/com/cmdjojo/util/ArrayUtil.java:143 | the loop starts at the last index but counts up with `i++` | `last(new Integer[]{1, 2}, x -> x == 1)` throws ArrayIndexOutOfBoundsException | 1, the last element the filter accepts | not executed | ArrayUtil.LastAsWritten | ArrayUtil.Last |
| src/main/java/com/cmdjojo/util/TextTable.java:191 | the removing loop counts up with `i++`, so it removes one column and then indexes past the end | `new TextTable(3).setWidth(1)` removes one column, then throws IndexOutOfBoundsException | the table keeps its first column only | not executed | TextTable.TextTable.SetWidth | TextTable.TextTable.SetWidthFixed |
| src/main/java/com/cmdjojo/util/Stopwatch.java:335 | `compareNext(name)` passes `args` 0, which `msToString` rejects | after `set("a", 0)` and `set("b", 5)`, `compareNext("a")` throws IndexOutOfBoundsException | "a => b took 5ms" | not executed | Stopwatch.Stopwatch.CompareNextDefaultThrows | Stopwatch.Stopwatch.CompareNextDefaultFixedText |
| src/main/java/com/cmdjojo/util/Stopwatch.java:372 | `compareNextAll()` passes `args` 0 | with two timers set, `compareNextAll()` throws IndexOutOfBoundsException | one line per name, with all components | not executed | Stopwatch.Stopwatch.CompareNextAllDefaultThrows | Stopwatch.Stopwatch.CompareNextAllDefaultFixedOk |
| src/main/java/com/cmdjojo/util/TextTable.java:168-171 | `removeRow` and `pruneRows` remove keys through the map while iterating over its `keySet()` | after `set(0, 0, "a")` and `set(0, 1, "b")`, `removeRow(0)` throws ConcurrentModificationException | the row's cells are removed from every column | not executed | TextTable.RemoveRowAsWrittenThrows | TextTable.TextTable.RemoveRow |

The model uses the corrected definitions:
- `TimeText.Parse` and `TimeValue.Time.OfText` follow the code and use the `(int)` narrowing. `TimeText.ParseText` is the corrected reference with `(long)`. The round trips (`TimeText.FormatParses`) hold for both, because `toString` prints only integer numerals.
- `TextTable.TextTable.RemoveRow` and `PruneRows` remove the keys through `RemoveKeys`, which cannot throw.
- `TextTable.TextTable.Create`, `Set` and `RemoveColumn` call `SetWidthFixed`. They only ever widen the table, and on that growing branch `SetWidth` and `SetWidthFixed` are the same, so these three follow the code exactly.
- `Stopwatch.Stopwatch.CompareTimers` passes only non-negative distances to `msToString`, because every timer is ≥ 0. For those inputs the as-written and the corrected text agree (`Kbdx.MsTextAgrees`).
- `Stopwatch.Compare` on arbitrary `long`s follows the code, doubled sign included: `compare(0, Long.MIN_VALUE, -1)` wraps the difference to `Long.MIN_VALUE` (`Stopwatch.CompareMsOverflow`) and writes "--808ms" (`Kbdx.MinValueDoubleSign`).
