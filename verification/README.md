# Rule evaluators with injected collaborators, in Dafny

This project models three small, independent C# exercises, each a rule
evaluator behind an injected collaborator:

- **Colour-pair table** (`misaligned/misaligned.cs`): `ColorMapGenerator`
  walks a fixed palette of five major colours (White, Red, Black, Yellow,
  Violet) and five minor colours (Blue, Orange, Green, Brown, Slate) with two
  nested loops, asks an injected `IColorMapFormatter` for each line, collects
  the 25 lines and echoes each to an injected `IOutputWriter`.
  `ColorMapFormatter` renders "{number} | {major} | {minor}".
- **T-shirt sizes** (`tshirts/tshirts.cs`): `TshirtSizeClassifier.Size` maps
  a measurement in centimetres to "S", "M" or "L"; `Tshirt` forwards to an
  injected classifier.
- **Weather report** (`weatherreport/main.cs`, `weatherreport/SensorStub.cs`):
  `WeatherReporter.Report` is a nested decision table over temperature,
  precipitation and wind speed; `Weather` forwards to an injected reporter;
  `SensorStub` and three fixed-reading stubs supply readings.

Modules: `Misaligned` (colour map), `Tshirts`, `WeatherReport` (sensor,
stubs, reporter, facade), and the helpers `Decimal` (`int.ToString()` and its
parser), `Text` (`Split`/`Join`, ASCII `ToLower`, `Contains`) and `Wrappers`
(`Option`).

Collaborators are function values: a formatter is `(int, string, string) ->
string`, a classifier `int -> string`, a reporter `Sensor -> string`. The
writer is modelled as the sequence of lines it receives, returned by
`GenerateColorMap` next to the formatter calls it made. A sensor is a record
of its four readings; its fields are the accessors, so the readings cannot
change after construction.

Each exercise carries a seeded bug. The model states the code as written and,
separately, a corrected variant with the behaviour the exercise's tests ask
for (see "## Findings"). Names containing `Corrected` are about the fix;
names starting with `Correction` compare the fixed and the as-written
versions; lemmas taking a `p: Pairing` hold for both colour-map versions;
everything else describes the code as written.

The comment at weatherreport/main.cs:15 says precipitation below 20 is a sunny
day, whatever the wind; the code raises the storm alert there when the wind
exceeds 50. The model follows the code (`ReportLightPrecipitationStorm`),
and the corrected reporter keeps that behaviour, changing only the uncovered
heavy-rain region.

## Model

| member | source | states |
|---|---|---|
| Misaligned.GenerateColorMap | misaligned/misaligned.cs:35-50 | the nested loops make exactly 25 formatter calls; call k has number k, major colour k / 5 and (as written) minor colour k / 5; line k is the formatter's output for call k; the writer receives exactly the returned lines, in order |
| Misaligned.TotalEntries | misaligned/misaligned.cs:52-56 | `GetTotalEntries` is 5 * 5 = 25, the length of the generated table both as written and corrected |
| Misaligned.FormatParseRoundTrip | misaligned/misaligned.cs:14-16 | a formatted line determines its number and both colours: parsing it back yields them when the colour names contain no '|' |
| Misaligned.FormatFieldCount | misaligned/misaligned.cs:14-16 | every formatted line splits on '|' into exactly three fields, whatever the number, so lines 0 and 24 have equal field counts |
| Misaligned.FormatExamples | misaligned.tests/ColorMapGeneratorTests.cs:91-96 | (0, White, Blue) gives the line 0, White, Blue joined by the bar separator, and (24, Violet, Slate) the line 24, Violet, Slate joined the same way |
| Misaligned.RenderedLinesParse | misaligned/misaligned.cs:41-45 | with the production formatter, line k reads back as call k, whose number is k: the number in a line is its list position |
| Misaligned.AsWrittenRowsRepeatMinor | misaligned/misaligned.cs:43-44 | as written, entry k pairs major k / 5 with minor k / 5; the five White entries are all White/Blue; only the five diagonal pairs occur and White/Orange is missing from the product |
| Misaligned.AsWrittenSecondWhiteLine | misaligned/misaligned.cs:44 | as written, the second White line pairs White with Blue (number 1) where the test expects White with Orange |
| Misaligned.CorrectedIsCartesianProduct | misaligned/misaligned.cs:41-44 | with minorColors[j], entry k pairs major k / 5 with minor k % 5; the pairs are exactly the Cartesian product of the palettes and no pair occurs twice |
| Misaligned.CorrectedSecondWhiteLine | misaligned.tests/ColorMapGeneratorTests.cs:62-63 | corrected, the second White line pairs White with Orange (number 1) |
| Misaligned.EachMajorInFiveEntries | misaligned/misaligned.cs:36-44 | each major colour occurs in exactly five entries, as written and corrected |
| Misaligned.EachMinorInFiveEntries | misaligned/misaligned.cs:36-44 | each minor colour occurs in exactly five entries, as written and corrected |
| Decimal.ParseIntOfIntToString | misaligned/misaligned.cs:16 | the decimal text of any int (with '-' for negatives) parses back to that int, so distinct numbers give distinct lines |
| Text.SplitCount | misaligned.tests/ColorMapGeneratorTests.cs:99 | splitting on the bar character yields one more field than there are bar characters |
| Text.SplitJoin | misaligned.tests/ColorMapGeneratorTests.cs:99 | joining the fields of a split with the separator gives back the original line |
| Tshirts.Size | tshirts/tshirts.cs:9-17 | the result is always S, M or L; S exactly below 38, M exactly strictly between 38 and 42, L exactly at 38 and from 42 up |
| Tshirts.SizeExamples | tshirts/tshirts.cs:10-16 | 37 is S, 40 is M, 43 is L, and the boundary values 38 and 42 are both L |
| Tshirts.SizeNotMonotone | tshirts/tshirts.cs:10-16 | as written a larger measurement can get a smaller size: 38 is L while 39 is M |
| Tshirts.SizeCorrected | tshirts.tests/TshirtTests.cs:47-81 | corrected classifier: S below 38, M from 38 through 42, L above 42, always one of the three |
| Tshirts.SizeCorrectedExamples | tshirts.tests/TshirtTests.cs:8-81 | corrected: 37 is S, 38, 40 and 42 are M, 43 is L |
| Tshirts.SizeCorrectedMonotone | tshirts/tshirts.cs:10-16 | corrected sizes never decrease as the measurement grows |
| Tshirts.CorrectionOnlyAtBoundaries | tshirts/tshirts.cs:10-16 | the corrected and as-written classifiers differ exactly at 38 and 42 |
| Tshirts.Tshirt.GetSize | tshirts/tshirts.cs:27-29 | the facade returns exactly what its injected classifier returns for the same measurement |
| Tshirts.TshirtForwards | tshirts.tests/TshirtTests.cs:86-99 | over the production classifier the facade agrees with `Size`; over the test double it returns "MOCK_SIZE" |
| WeatherReport.SensorStubReadings | weatherreport/SensorStub.cs:16-42 | defaults are 26, 70, 72, 52; each accessor returns its constructor argument |
| WeatherReport.Report | weatherreport/main.cs:12-28 | the result is always one of "Sunny Day", "Partly Cloudy", "Alert, Stormy with heavy rain" |
| WeatherReport.ReportDecisionTable | weatherreport/main.cs:14-27 | each report with the exact region yielding it: Partly Cloudy iff warm and 20 <= precipitation < 60; the alert iff warm, precipitation outside that band and wind > 50; Sunny Day otherwise |
| WeatherReport.ReportIgnoresHumidity | weatherreport/main.cs:12-28 | changing only the humidity reading never changes the report |
| WeatherReport.ReportLightPrecipitationStorm | weatherreport/main.cs:20-23 | warm, precipitation below 20 and wind above 50 also gives the storm alert |
| WeatherReport.ReportGapIsSunny | weatherreport/main.cs:22-25 | warm, precipitation at least 60 and wind at most 50 gives "Sunny Day" as written |
| WeatherReport.ReportExamples | weatherreport.tests/WeatherReporterTests.cs:8-85 | the five test readings: (20, 10) sunny, (30, 40, 25) cloudy, (30, 80, 60) alert, and (30, 70, 30), (30, 60, 30) both "Sunny Day" as written |
| WeatherReport.StubReports | weatherreport/SensorStub.cs:46-68 | the high-precipitation/low-wind stub lies in the gap and reports "Sunny Day"; the stormy stub gives the alert; the partly-cloudy stub gives "Partly Cloudy"; a default `SensorStub` gives the alert |
| WeatherReport.RainInReports | weatherreport.tests/WeatherReporterTests.cs:65 | lower-cased, the storm alert contains "rain" and "Sunny Day" does not |
| WeatherReport.ReportCorrected | weatherreport/main.cs:18-26 | corrected reporter: in the heavy-rain gap it forecasts rain and is not "Sunny Day"; whenever warm with precipitation at least 60 it forecasts rain; outside the gap it equals `Report` |
| WeatherReport.CorrectionOnlyInGap | weatherreport/main.cs:18-26 | the corrected and as-written reporters differ exactly on the heavy-rain gap |
| WeatherReport.CorrectedGapExamples | weatherreport.tests/WeatherReporterTests.cs:50-85 | corrected, (30, 70, 30) forecasts rain and is not "Sunny Day"; (30, 60, 30) and the gap stub are not "Sunny Day" |
| WeatherReport.Weather.GetReport | weatherreport/main.cs:40-43 | the facade returns exactly what its injected reporter returns for the same sensor |
| WeatherReport.LegacyReport | weatherreport/main.cs:46-50 | the legacy static report equals `Report` for every sensor, and equals the facade over the production reporter |
| WeatherReport.WeatherForwards | weatherreport.tests/WeatherReporterTests.cs:91-104 | over the production reporter the facade agrees with `Report`; over the test double it returns "MOCK_REPORT" |

## Left out

- The `Program.Main` entry points and `ConsoleWriter`: console output only; the writer is the returned line sequence.
- `weatherreport/IWeatherSensor.cs` as a separate interface: its four accessors are the fields of `Sensor`.
- The mocks' `WasCalled` and `WriteCount` flags: pure collaborators are applied once per facade call by construction, and the generator's formatter calls and writer lines are returned as sequences whose lengths and contents the contracts fix.
- `double` semantics of the temperature: it is a `real`, so NaN and rounding are not modelled; only the comparison with 25 is used.
- 32-bit `int` limits: measurements, readings and entry numbers are unbounded integers; the code only compares them and formats numbers 0 to 24.
- Misaligned.FormatParseRoundTrip and Decimal.ParseIntOfIntToString: describe the invariant-culture text of the number (ASCII '-' for negatives), while `string.Format` at misaligned/misaligned.cs:16 uses the current culture; cultures with another negative sign (U+2212, for one) render negative numbers differently. The generator formats only 0 to 24, whose text is the same in every culture that uses ASCII digits.
- Culture-sensitive `ToLower`: `Text.Lower` folds only ASCII letters, which covers every report string here.
- WeatherReport.ReportCorrected: takes the rain forecast text as a parameter required to contain "rain", because the tests fix no exact wording for it.
- Tshirts.Tshirt.GetSize and WeatherReport.Weather.GetReport: the "called exactly once" part of the facade tests is implicit in a single function application and not stated separately.

## Findings

| source | as written | input that shows it | evidently intended | confidence | as-written member | corrected member |
|---|---|---|---|---|---|---|
| misaligned/misaligned.cs:44 | the minor colour is read with the outer index i | entry 1 pairs White with Blue | minorColors[j], giving all 25 pairs | high (the code comment and tests say so); not executed | Misaligned.AsWrittenSecondWhiteLine | Misaligned.CorrectedIsCartesianProduct |
| tshirts/tshirts.cs:10-16 | 38 and 42 fall into the else branch | Size(38) == "L" while Size(39) == "M" | 38 and 42 are M, sizes monotone | high (boundary tests expect M); not executed | Tshirts.SizeNotMonotone | Tshirts.SizeCorrectedMonotone |
| weatherreport/main.cs:22-25 | warm, heavy precipitation, light wind stays "Sunny Day" | (30, 70, 30) and (30, 60, 30) give "Sunny Day" | a rain forecast in that region | high (code comment and tests say so); not executed | WeatherReport.ReportGapIsSunny | WeatherReport.ReportCorrected |
