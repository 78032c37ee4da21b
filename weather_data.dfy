/**
 * The data the weather queries deliver and the query result shape the
 * components read. Floating-point measurements (temperatures, wind speed)
 * are not carried; an hourly item carries its temperature already rounded
 * and its local clock reading, which the model takes as given.
 */
module WeatherData {
  import opened Wrappers

  datatype Condition = Condition(id: int, main: string, description: string, icon: string)

  datatype Sys = Sys(country: string)

  /** The current-weather record of one city. */
  datatype CurrentWeather = CurrentWeather(
    id: int, name: string, dt: int, weather: seq<Condition>,
    humidity: int, pressure: int, sys: Sys)

  /**
   * One point of the hourly forecast: `dt` in epoch seconds, `localHours` and
   * `localMinutes` as `getHours()`/`getMinutes()` read `new Date(dt * 1000)`,
   * and `Math.round(main.temp)`.
   */
  datatype HourlyItem = HourlyItem(dt: int, localHours: nat, localMinutes: nat, roundedTemp: int)

  /** The hourly forecast record; its `list` may be missing. */
  datatype HourlyForecast = HourlyForecast(list: Option<seq<HourlyItem>>)

  /** The error object of a failed query; any present error is truthy. */
  datatype QueryError = QueryError(status: int)

  /** What a query hook returns, as the components read it. */
  datatype QueryResult<D> = QueryResult(data: Option<D>, error: Option<QueryError>, isLoading: bool, isFetching: bool)

  /** The "Update now" button of a card or of the details card. */
  datatype UpdateButton = UpdateButton(disabled: bool, caption: string)

  /** `disabled={isFetching}`, labelled "Updating..." while fetching and "Update now" otherwise. */
  function UpdateButtonFor(isFetching: bool): (b: UpdateButton)
    ensures b.disabled == isFetching
    ensures b.caption == "Updating..." <==> isFetching
    ensures b.caption == "Updating..." || b.caption == "Update now"
  {
    if isFetching then UpdateButton(true, "Updating...") else UpdateButton(false, "Update now")
  }

  /** `data.weather?.[0]?.description`: nothing when there is no condition. */
  function Description(data: CurrentWeather): (r: Option<string>)
    ensures r.Some? <==> |data.weather| > 0
    ensures r.Some? ==> r.value == data.weather[0].description
  {
    if |data.weather| == 0 then None else Some(data.weather[0].description)
  }
}
