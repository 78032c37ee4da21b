/**
 * The card of one city in the list: what it shows for each state of its
 * current-weather query, and which callback each of its buttons calls.
 */
module CityCard {
  import opened Wrappers
  import opened WeatherData

  /** The part of the card below the header. */
  datatype Body =
    | LoadingWeather            // "Loading weather..."
    | CheckCityName             // "Failed to load data. Check the city name."
    | WeatherBlock(data: CurrentWeather, description: Option<string>)
    | NoDataAvailable           // "No data available."

  /** A rendered card: the header (title, optional country line), the body and the update button. */
  datatype Card = Card(title: string, countryLine: Option<string>, body: Body, update: UpdateButton)

  /** The body's precedence: loading, then error, then data, then the no-data text. */
  function BodyFor(q: QueryResult<CurrentWeather>): (b: Body)
    ensures b.LoadingWeather? <==> q.isLoading
    ensures b.CheckCityName? <==> !q.isLoading && q.error.Some?
    ensures b.WeatherBlock? <==> !q.isLoading && q.error.None? && q.data.Some?
    ensures b.NoDataAvailable? <==> !q.isLoading && q.error.None? && q.data.None?
    ensures b.WeatherBlock? ==> b.data == q.data.value && b.description == Description(q.data.value)
  {
    if q.isLoading then LoadingWeather
    else if q.error.Some? then CheckCityName
    else if q.data.Some? then WeatherBlock(q.data.value, Description(q.data.value))
    else NoDataAvailable
  }

  /** `CityCard`. The header sits outside the status conditional, so the title is there in every state. */
  function Render(city: string, q: QueryResult<CurrentWeather>): (c: Card)
    ensures c.title == city
    ensures c.countryLine.Some? <==> q.data.Some? && q.data.value.sys.country != ""
    ensures c.countryLine.Some? ==> c.countryLine.value == q.data.value.sys.country
    ensures c.body == BodyFor(q)
    ensures c.update == UpdateButtonFor(q.isFetching)
  {
    var country := if q.data.Some? && q.data.value.sys.country != "" then Some(q.data.value.sys.country) else None;
    Card(city, country, BodyFor(q), UpdateButtonFor(q.isFetching))
  }

  /** The clickable parts of a card. */
  datatype Control = TitleButton | DeleteButton | TemperatureArea | UpdateNow | DetailedInformation

  /** The calls a click makes on the card's callbacks and on the query. */
  datatype Call = OnOpenDetails(city: string) | OnRemove(city: string) | Refetch

  /**
   * The calls one click makes. The temperature area exists only while the
   * weather block is shown, and a disabled update button ignores clicks.
   */
  function Click(city: string, q: QueryResult<CurrentWeather>, control: Control): (calls: seq<Call>)
    ensures |calls| <= 1
    ensures control == TitleButton || control == DetailedInformation ==> calls == [OnOpenDetails(city)]
    ensures control == TemperatureArea ==> calls == if BodyFor(q).WeatherBlock? then [OnOpenDetails(city)] else []
    ensures control == DeleteButton ==> calls == [OnRemove(city)]
    ensures control == UpdateNow ==> calls == if q.isFetching then [] else [Refetch]
  {
    match control
    case TitleButton => [OnOpenDetails(city)]
    case DetailedInformation => [OnOpenDetails(city)]
    case TemperatureArea => if Render(city, q).body.WeatherBlock? then [OnOpenDetails(city)] else []
    case DeleteButton => [OnRemove(city)]
    case UpdateNow => if Render(city, q).update.disabled then [] else [Refetch]
  }

  /** Every callback a card calls is given its own city, never another. */
  lemma CardCallsCarryItsCity(city: string, q: QueryResult<CurrentWeather>, control: Control)
    ensures forall c :: c in Click(city, q, control) ==> c == Refetch || c.city == city
  {
  }
}
