/**
 * The details panel of the selected city: when its two queries are
 * skipped, what it shows for each state of the current-weather and the
 * hourly-forecast query, and what its buttons call.
 */
module CityDetails {
  import opened Wrappers
  import opened WeatherData
  import CityList

  /** `skip: !city`, passed to both queries. */
  predicate QueriesSkipped(city: string) {
    city == ""
  }

  /** Content of the hourly section. `Blank` is the trailing `null` of the ternary. */
  datatype HourlySection = ForecastLoading | ForecastFailed | ForecastChart(list: seq<HourlyItem>) | Blank

  /** The panel below its heading. */
  datatype Main =
    | Loading      // "Loading..."
    | LoadFailed   // "Failed to load data."
    | NoData       // "No data available."
    | DetailCard(title: string, description: Option<string>, hourly: Option<HourlySection>, update: UpdateButton)

  /** A rendered panel: the back button and the heading are always there, then the main part. */
  datatype Panel = Panel(heading: string, main: Main)

  /** `hourlyData?.list`. */
  function HourlyList(h: QueryResult<HourlyForecast>): (r: Option<seq<HourlyItem>>)
    ensures r.Some? <==> h.data.Some? && h.data.value.list.Some?
    ensures r.Some? ==> r == h.data.value.list
  {
    if h.data.Some? then h.data.value.list else None
  }

  /** The hourly section: present only for a list, a load in progress or an error; then loading, error, chart in that order. */
  function HourlySectionFor(h: QueryResult<HourlyForecast>): (r: Option<HourlySection>)
    ensures r.Some? <==> HourlyList(h).Some? || h.isLoading || h.error.Some?
    ensures r == Some(ForecastLoading) <==> h.isLoading
    ensures r == Some(ForecastFailed) <==> !h.isLoading && h.error.Some?
    ensures r.Some? && r.value.ForecastChart? <==> !h.isLoading && h.error.None? && HourlyList(h).Some?
    ensures r.Some? && r.value.ForecastChart? ==> r.value.list == HourlyList(h).value
    ensures r != Some(Blank)
  {
    if HourlyList(h).Some? || h.isLoading || h.error.Some? then
      Some(if h.isLoading then ForecastLoading
           else if h.error.Some? then ForecastFailed
           else if HourlyList(h).Some? then ForecastChart(HourlyList(h).value)
           else Blank)
    else None
  }

  /** The main precedence: loading, then error, then missing data, then the detail card. */
  function MainFor(current: QueryResult<CurrentWeather>, hourly: QueryResult<HourlyForecast>): (m: Main)
    ensures m.Loading? <==> current.isLoading
    ensures m.LoadFailed? <==> !current.isLoading && current.error.Some?
    ensures m.NoData? <==> !current.isLoading && current.error.None? && current.data.None?
    ensures m.DetailCard? <==> !current.isLoading && current.error.None? && current.data.Some?
    ensures m.DetailCard? ==>
      m.title == current.data.value.name + ", " + current.data.value.sys.country &&
      m.description == Description(current.data.value) &&
      m.hourly == HourlySectionFor(hourly) &&
      m.update == UpdateButtonFor(current.isFetching)
  {
    if current.isLoading then Loading
    else if current.error.Some? then LoadFailed
    else if current.data.None? then NoData
    else
      var data := current.data.value;
      DetailCard(data.name + ", " + data.sys.country, Description(data), HourlySectionFor(hourly), UpdateButtonFor(current.isFetching))
  }

  /** `CityDetails`. */
  function Render(city: string, current: QueryResult<CurrentWeather>, hourly: QueryResult<HourlyForecast>): (p: Panel)
    ensures p.heading == "Detailed weather: " + city
    ensures p.main == MainFor(current, hourly)
  {
    Panel("Detailed weather: " + city, MainFor(current, hourly))
  }

  /** The update button depends on the current-weather query only: the hourly query never changes it. */
  lemma UpdateIgnoresHourly(city: string, current: QueryResult<CurrentWeather>, h1: QueryResult<HourlyForecast>, h2: QueryResult<HourlyForecast>)
    requires Render(city, current, h1).main.DetailCard?
    ensures Render(city, current, h2).main.DetailCard?
    ensures Render(city, current, h1).main.update == Render(city, current, h2).main.update
  {
  }

  /** The clickable parts of the panel. */
  datatype Control = BackButton | UpdateNow

  /** The calls a click makes. */
  datatype Call = OnBack | Refetch

  /** Back calls `onBack` once in every state; update exists only on the detail card and is ignored while disabled. */
  function Click(city: string, current: QueryResult<CurrentWeather>, hourly: QueryResult<HourlyForecast>, control: Control): (calls: seq<Call>)
    ensures control == BackButton ==> calls == [OnBack]
    ensures control == UpdateNow ==>
      calls == if !current.isLoading && current.error.None? && current.data.Some? && !current.isFetching then [Refetch] else []
  {
    match control
    case BackButton => [OnBack]
    case UpdateNow =>
      var main := Render(city, current, hourly).main;
      if main.DetailCard? && !main.update.disabled then [Refetch] else []
  }

  /** The page opens the panel only for a truthy selection, so inside the app the queries are never skipped. */
  lemma PanelFromPageIsNotSkipped(cities: seq<string>, selected: Option<string>)
    requires CityList.View(cities, selected).Details?
    ensures !QueriesSkipped(CityList.View(cities, selected).city)
  {
  }
}
