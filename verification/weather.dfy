/**
  The weather reporter: a nested decision table over the temperature,
  precipitation and wind-speed readings of a sensor, the `Weather` facade that
  forwards to an injected reporter, and the sensor stubs the program and its
  tests use.
 */
module WeatherReport {
  import Text

  /**
    An `IWeatherSensor`, represented by its four readings; the fields are its
    accessors. The temperature is compared only against 25, so it is a real.
   */
  datatype Sensor = Sensor(temperatureInC: real, precipitation: int, humidity: int, windSpeedKmph: int)

  /** `SensorStub`: a sensor that reports the readings it was constructed with. */
  function SensorStub(temperature: real := 26.0, precipitation: int := 70,
                      humidity: int := 72, windSpeed: int := 52): (s: Sensor)
  {
    Sensor(temperature, precipitation, humidity, windSpeed)
  }

  /** The constructor defaults, and each accessor returning its constructor argument. */
  lemma SensorStubReadings(t: real, p: int, h: int, w: int)
    ensures SensorStub() == Sensor(26.0, 70, 72, 52)
    ensures var s := SensorStub(t, p, h, w);
      s.temperatureInC == t && s.precipitation == p && s.humidity == h && s.windSpeedKmph == w
  {
  }

  const HighPrecipitationLowWindStub: Sensor := Sensor(30.0, 70, 80, 30)
  const StormyWeatherStub: Sensor := Sensor(28.0, 80, 90, 60)
  const PartlyCloudyStub: Sensor := Sensor(27.0, 40, 65, 25)

  const SunnyDay := "Sunny Day"
  const PartlyCloudy := "Partly Cloudy"
  const StormyAlert := "Alert, Stormy with heavy rain"

  /** Warm enough for the rules that look at precipitation and wind. */
  predicate Warm(s: Sensor) {
    s.temperatureInC > 25.0
  }

  /** Precipitation in the moderate band [20, 60). */
  predicate ModeratePrecipitation(s: Sensor) {
    20 <= s.precipitation < 60
  }

  /** The region the code as written leaves uncovered: warm, heavy precipitation, light wind. */
  predicate HeavyRainGap(s: Sensor) {
    Warm(s) && s.precipitation >= 60 && s.windSpeedKmph <= 50
  }

  /**
    `WeatherReporter.Report` as written: "Sunny Day" unless warm; when warm,
    moderate precipitation is "Partly Cloudy", otherwise wind above 50 is the
    storm alert, and anything else stays "Sunny Day".
   */
  function Report(s: Sensor): (r: string)
    ensures r == SunnyDay || r == PartlyCloudy || r == StormyAlert
  {
    var precipitation := s.precipitation;
    if s.temperatureInC > 25.0 then
      if precipitation >= 20 && precipitation < 60 then PartlyCloudy
      else if s.windSpeedKmph > 50 then StormyAlert
      else SunnyDay
    else SunnyDay
  }

  /** The decision table of `Report`, each report with the exact region that yields it. */
  lemma ReportDecisionTable(s: Sensor)
    ensures Report(s) == SunnyDay <==>
      !Warm(s) || (!ModeratePrecipitation(s) && s.windSpeedKmph <= 50)
    ensures Report(s) == PartlyCloudy <==> Warm(s) && ModeratePrecipitation(s)
    ensures Report(s) == StormyAlert <==>
      Warm(s) && !ModeratePrecipitation(s) && s.windSpeedKmph > 50
  {
  }

  /** Humidity is read by no rule: changing it alone never changes the report. */
  lemma ReportIgnoresHumidity(s: Sensor, humidity: int)
    ensures Report(s.(humidity := humidity)) == Report(s)
  {
  }

  /**
    As written, light precipitation with strong wind also raises the storm
    alert, since the wind test only asks that precipitation lie outside the
    moderate band.
   */
  lemma ReportLightPrecipitationStorm(s: Sensor)
    requires Warm(s) && s.precipitation < 20 && s.windSpeedKmph > 50
    ensures Report(s) == StormyAlert
  {
  }

  /** As written, the whole heavy-rain gap reports "Sunny Day". */
  lemma ReportGapIsSunny(s: Sensor)
    requires HeavyRainGap(s)
    ensures Report(s) == SunnyDay
  {
  }

  /** The readings the tests use, as the code reports them. */
  lemma ReportExamples()
    ensures Report(SensorStub(temperature := 20.0, precipitation := 10)) == SunnyDay
    ensures Report(SensorStub(temperature := 30.0, precipitation := 40, windSpeed := 25)) == PartlyCloudy
    ensures Report(SensorStub(temperature := 30.0, precipitation := 80, windSpeed := 60)) == StormyAlert
    ensures Report(SensorStub(temperature := 30.0, precipitation := 70, windSpeed := 30)) == SunnyDay
    ensures Report(SensorStub(temperature := 30.0, precipitation := 60, windSpeed := 30)) == SunnyDay
  {
  }

  /** The fixed-reading stubs and a default-constructed `SensorStub`, as the code reports them. */
  lemma StubReports()
    ensures Report(SensorStub()) == StormyAlert
    ensures HeavyRainGap(HighPrecipitationLowWindStub) && Report(HighPrecipitationLowWindStub) == SunnyDay
    ensures Report(StormyWeatherStub) == StormyAlert
    ensures Report(PartlyCloudyStub) == PartlyCloudy
  {
  }

  /** What the tests accept as a rain forecast: "rain" in the lower-cased report. */
  predicate PredictsRain(report: string) {
    Text.Contains(Text.Lower(report), "rain")
  }

  /** The storm alert forecasts rain; "Sunny Day" does not. */
  lemma RainInReports()
    ensures PredictsRain(StormyAlert)
    ensures !PredictsRain(SunnyDay)
  {
    var storm := Text.Lower(StormyAlert);
    assert storm[25..29] == "rain";
    assert Text.OccursAt(storm, "rain", 25);
    Text.ContainsAt(storm, "rain");
    var sunny := Text.Lower(SunnyDay);
    if PredictsRain(SunnyDay) {
      Text.ContainsFirstChar(sunny, "rain");
      var i :| 0 <= i < |sunny| && sunny[i] == 'r';
      assert false;
    }
  }

  /**
    `Report` with the missing branch added: inside the heavy-rain gap it
    returns `rainReport`, a report that forecasts rain; everywhere else it
    answers as the code does.
   */
  function ReportCorrected(s: Sensor, rainReport: string): (r: string)
    requires PredictsRain(rainReport)
    ensures HeavyRainGap(s) ==> PredictsRain(r) && r != SunnyDay
    ensures Warm(s) && s.precipitation >= 60 ==> PredictsRain(r)
    ensures !HeavyRainGap(s) ==> r == Report(s)
  {
    RainInReports();
    var precipitation := s.precipitation;
    if s.temperatureInC > 25.0 then
      if precipitation >= 20 && precipitation < 60 then PartlyCloudy
      else if s.windSpeedKmph > 50 then StormyAlert
      else if precipitation >= 60 then rainReport
      else SunnyDay
    else SunnyDay
  }

  /** The correction changes the report exactly on the heavy-rain gap. */
  lemma CorrectionOnlyInGap(s: Sensor, rainReport: string)
    requires PredictsRain(rainReport)
    ensures ReportCorrected(s, rainReport) != Report(s) <==> HeavyRainGap(s)
  {
    RainInReports();
  }

  /** The two gap readings of the tests: no longer "Sunny Day", and forecasting rain. */
  lemma CorrectedGapExamples(rainReport: string)
    requires PredictsRain(rainReport)
    ensures var r := ReportCorrected(SensorStub(temperature := 30.0, precipitation := 70, windSpeed := 30), rainReport);
      r != SunnyDay && PredictsRain(r)
    ensures ReportCorrected(SensorStub(temperature := 30.0, precipitation := 60, windSpeed := 30), rainReport) != SunnyDay
    ensures ReportCorrected(HighPrecipitationLowWindStub, rainReport) != SunnyDay
  {
  }

  /** An injected `IWeatherReporter`. */
  type Reporter = Sensor -> string

  /** `Weather`: holds a reporter and forwards every request to it. */
  datatype Weather = Weather(reporter: Reporter) {

    function GetReport(s: Sensor): (r: string)
      ensures r == reporter(s)
    {
      reporter(s)
    }
  }

  /** The legacy static `Weather.Report`: a fresh production reporter, asked once. */
  function LegacyReport(s: Sensor): (r: string)
    ensures r == Report(s)
    ensures r == Weather(Report).GetReport(s)
  {
    var reporter: Reporter := Report;
    reporter(s)
  }

  /** The test double: answers "MOCK_REPORT" whatever the sensor. */
  const MockReporter: Reporter := _ => "MOCK_REPORT"

  /** The facade returns what its reporter returns, the production one or the double. */
  lemma WeatherForwards(s: Sensor)
    ensures Weather(Report).GetReport(s) == Report(s)
    ensures Weather(MockReporter).GetReport(SensorStub()) == "MOCK_REPORT"
  {
  }
}
