/** `manipulateApiResponse` (app/utils/weatherFunctionality.js): the OpenWeather
    "one call" response, or its absence, reshaped into what the monument page
    shows. The two locale formatters (`toLocaleString("en-IE", ...)` of a
    millisecond time) are parameters. */
module WeatherFunctionality {
  import opened Wrappers

  /** An entry of a `weather` array. */
  datatype Condition = Condition(main: string, description: string)

  /** The `current` object, with the fields the reshaping reads. */
  datatype Current = Current(weather: seq<Condition>, sunset: int, feelsLike: real,
                             pressure: real, humidity: real, windSpeed: real)

  /** An entry of the `daily` array. */
  datatype Daily = Daily(dt: int, weather: seq<Condition>)

  datatype ApiResponse = ApiResponse(current: Current, daily: seq<Daily>)

  /** `dayWeatherObject`, lines 56-60. */
  datatype DayForecast = DayForecast(date: string, summary: string, description: string)

  /** `currentWeatherFormattedObject`, lines 65-70: exactly its four keys. */
  datatype CurrentSummary = CurrentSummary(perceivedTemperature: real, pressure: real, humidity: real, windSpeed: real)

  /** The object returned at lines 80-87; `None` is `undefined`. */
  datatype WeatherView = WeatherView(
    weatherAvailable: bool,
    currentWeather: Option<Current>,
    currentWeatherFormattedObject: Option<CurrentSummary>,
    weatherForecastNextWeek: Option<seq<DayForecast>>,
    formattedSunsetTime: Option<string>,
    currentWeatherDescription: Option<string>)

  /** One forecast entry: the day's date in the long format, and the first
      condition's `main` and `description`. */
  function DayEntry(day: Daily, fullDate: int -> string): DayForecast
    requires day.weather != []
  {
    DayForecast(fullDate(day.dt * 1000), day.weather[0].main, day.weather[0].description)
  }

  /** The loop of lines 49-63 as a function: a day with an empty `weather`
      array makes `dailyWeatherSummary[0]["main"]` throw. */
  function Forecast(daily: seq<Daily>, fullDate: int -> string): (r: Result<seq<DayForecast>>)
    ensures r.Err? ==> r.error == TypeError
  {
    if daily == [] then Ok([])
    else
      match Forecast(daily[..|daily| - 1], fullDate)
      case Err(e) => Err(e)
      case Ok(f) =>
        var day := daily[|daily| - 1];
        if day.weather == [] then Err(TypeError) else Ok(f + [DayEntry(day, fullDate)])
  }

  function Summarize(c: Current): CurrentSummary {
    CurrentSummary(c.feelsLike, c.pressure, c.humidity, c.windSpeed)
  }

  /** Lines 25-88 as a function of the response and the two formatters. */
  function Reshape(response: Option<ApiResponse>, fullDate: int -> string, timeOfDay: int -> string): Result<WeatherView> {
    match response
    case None => Ok(WeatherView(false, None, None, None, None, None))
    case Some(w) =>
      if w.current.weather == [] then Err(TypeError)
      else
        match Forecast(w.daily, fullDate)
        case Err(e) => Err(e)
        case Ok(f) =>
          Ok(WeatherView(true, Some(w.current), Some(Summarize(w.current)), Some(f),
                         Some(timeOfDay(w.current.sunset * 1000)), Some(w.current.weather[0].main)))
  }

  /** `ManipulateApiResponse` builds the forecast by pushing one entry per day. */
  method ManipulateApiResponse(response: Option<ApiResponse>, fullDate: int -> string, timeOfDay: int -> string)
    returns (r: Result<WeatherView>)
    ensures r == Reshape(response, fullDate, timeOfDay)
  {
    if response.None? {
      return Ok(WeatherView(false, None, None, None, None, None));
    }
    var weatherData := response.value;
    var currentWeather := weatherData.current;
    if |currentWeather.weather| == 0 {
      return Err(TypeError);
    }
    var currentWeatherDescription := currentWeather.weather[0].main;
    var dailyWeather := weatherData.daily;
    var formattedSunsetTime := timeOfDay(currentWeather.sunset * 1000);
    var weatherForecastNextWeek: seq<DayForecast> := [];
    var i := 0;
    while i < |dailyWeather|
      invariant 0 <= i <= |dailyWeather|
      invariant Forecast(dailyWeather[..i], fullDate) == Ok(weatherForecastNextWeek)
    {
      assert dailyWeather[..i + 1][..i] == dailyWeather[..i];
      var dailyWeatherSummary := dailyWeather[i].weather;
      if |dailyWeatherSummary| == 0 {
        assert Forecast(dailyWeather[..i + 1], fullDate).Err?;
        ForecastFailsOnPrefix(dailyWeather, i + 1, fullDate);
        return Err(TypeError);
      }
      var dayWeatherObject := DayForecast(fullDate(dailyWeather[i].dt * 1000), dailyWeatherSummary[0].main,
                                          dailyWeatherSummary[0].description);
      weatherForecastNextWeek := weatherForecastNextWeek + [dayWeatherObject];
      i := i + 1;
    }
    assert dailyWeather[..i] == dailyWeather;
    var currentWeatherFormattedObject := CurrentSummary(currentWeather.feelsLike, currentWeather.pressure,
                                                        currentWeather.humidity, currentWeather.windSpeed);
    r := Ok(WeatherView(true, Some(currentWeather), Some(currentWeatherFormattedObject), Some(weatherForecastNextWeek),
                        Some(formattedSunsetTime), Some(currentWeatherDescription)));
  }

  /** Once the forecast of a prefix throws, so does the forecast of the whole list. */
  lemma {:induction false} ForecastFailsOnPrefix(daily: seq<Daily>, k: nat, fullDate: int -> string)
    requires k <= |daily| && Forecast(daily[..k], fullDate).Err?
    ensures Forecast(daily, fullDate).Err?
    decreases |daily| - k
  {
    if k < |daily| {
      var p := daily[..k + 1];
      assert p[..|p| - 1] == daily[..k];
      ForecastFailsOnPrefix(daily, k + 1, fullDate);
    } else {
      assert daily[..k] == daily;
    }
  }

  /** The forecast has one entry per day, in order, each taken from that
      day's first condition; it throws exactly when some day has none. */
  lemma {:induction false} ForecastEntries(daily: seq<Daily>, fullDate: int -> string)
    ensures Forecast(daily, fullDate).Ok? <==> forall i :: 0 <= i < |daily| ==> daily[i].weather != []
    ensures Forecast(daily, fullDate).Ok? ==>
      var f := Forecast(daily, fullDate).value;
      && |f| == |daily|
      && forall i :: 0 <= i < |daily| ==>
           f[i].date == fullDate(daily[i].dt * 1000)
           && f[i].summary == daily[i].weather[0].main
           && f[i].description == daily[i].weather[0].description
  {
    if daily != [] {
      var init := daily[..|daily| - 1];
      ForecastEntries(init, fullDate);
      assert forall i :: 0 <= i < |init| ==> init[i] == daily[i];
    }
  }

  /** Without a response every indicator is off: `weatherAvailable` is false
      and the five other fields are `undefined`. */
  lemma UnavailableWithoutResponse(fullDate: int -> string, timeOfDay: int -> string)
    ensures var v := Reshape(None, fullDate, timeOfDay);
      && v.Ok? && !v.value.weatherAvailable
      && v.value.currentWeather.None? && v.value.currentWeatherFormattedObject.None?
      && v.value.weatherForecastNextWeek.None? && v.value.formattedSunsetTime.None?
      && v.value.currentWeatherDescription.None?
  {
  }

  /** With a response the reshaping succeeds exactly when every `weather`
      array it indexes is non-empty; then the weather is available, the
      description is the current condition's `main`, the four summary fields
      are copied from `current`, and the forecast has one entry per day. */
  lemma {:induction false} AvailableWithResponse(w: ApiResponse, fullDate: int -> string, timeOfDay: int -> string)
    ensures var v := Reshape(Some(w), fullDate, timeOfDay);
      && (v.Ok? <==> w.current.weather != [] && forall i :: 0 <= i < |w.daily| ==> w.daily[i].weather != [])
      && (v.Ok? ==>
           && v.value.weatherAvailable
           && v.value.currentWeather == Some(w.current)
           && v.value.currentWeatherDescription == Some(w.current.weather[0].main)
           && v.value.formattedSunsetTime == Some(timeOfDay(w.current.sunset * 1000))
           && v.value.currentWeatherFormattedObject
              == Some(CurrentSummary(w.current.feelsLike, w.current.pressure, w.current.humidity, w.current.windSpeed))
           && v.value.weatherForecastNextWeek.Some?
           && |v.value.weatherForecastNextWeek.value| == |w.daily|)
  {
    ForecastEntries(w.daily, fullDate);
  }
}
