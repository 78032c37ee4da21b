# Weather SPA: a Dafny model of its page state and view rules

This project models the sequential logic of a small Next.js weather application:

- the **city list controller** of the home page (`page.tsx`): loading the saved list from local
  storage, the add, remove, open-details and back handlers, the effect that saves the list after
  every change except the first render, and the choice between the details panel, the
  empty-list message and the card grid;
- the **hourly chart-data pipeline** of `TemperatureChart.tsx`: keep the forecast points of the
  current local day, label each with `H:00` or `HH:MM`, and decide which X-axis ticks keep their text;
- the **status-to-view rules** of `CityCard.tsx` and `CityDetails.tsx`: the fixed precedence of
  loading, error and data states, the hourly section, the update button and the callbacks each
  control calls.

Modules follow the source files: `CityList` (the pure parts of `page.tsx`), `HomePage` (the `Home`
component as a class whose methods are the handlers, with the saved item as a field and the effect
as `RunEffect`, flushed by `AfterRender`), `TemperatureChart`, `CityCard`, `CityDetails`; `WeatherData` holds the record types
of `types/weather.ts` and the shared update button; `JsText` holds `trim`, `String(n)` and
`padStart(2, '0')`; `Wrappers` holds `Option`.

Inputs that come from the environment are parameters: whether a browser `window` exists, what
`localStorage.getItem` plus `JSON.parse` yield, the local-day window `[dayStart, nextDayStart)` in
epoch milliseconds, each forecast point's local hour and minute, and the query hook results.

The model follows what the code does in these places, where the app's intended behaviour might be read differently:

- the loader checks only that the parsed value is an array, not that its elements are strings;
- remove drops every entry equal to the city (`filter`), not only the first;
- a card or panel shows the error message whenever the query has an error, even if it still holds
  data from an earlier success: error comes before data in the precedence;
- a remove always installs a new array, so the list is saved again even when nothing was removed.

## Model

| member | source | states |
|---|---|---|
| JsText.TrimStart | weather-spa/src/app/page.tsx:43 | the result is the suffix left after the longest all-whitespace prefix, and it does not start with whitespace |
| JsText.TrimEnd | weather-spa/src/app/page.tsx:43 | the result is the prefix left before the longest all-whitespace suffix, and it does not end with whitespace |
| JsText.Trim | weather-spa/src/app/page.tsx:43 | `trim` never lengthens the name; that it cuts only whitespace and leaves none at either end is stated by the two lemmas below |
| JsText.TrimIsInnerSlice | weather-spa/src/app/page.tsx:43 | `trim` returns a slice of its input with only whitespace cut from both ends |
| JsText.TrimIsTrimmed | weather-spa/src/app/page.tsx:43 | the trimmed string has no whitespace at either end |
| JsText.TrimEmptyIffBlank | weather-spa/src/app/page.tsx:43-44 | the trimmed draft is empty exactly when the draft is all whitespace |
| JsText.TrimIdempotent | weather-spa/src/app/page.tsx:43 | trimming an already trimmed name changes nothing |
| JsText.NatToString | weather-spa/src/components/weather/TemperatureChart.tsx:47 | `String(hours)` is a non-empty digit string without a leading zero, one digit exactly below 10 |
| JsText.DecimalValueOfNatToString | weather-spa/src/components/weather/TemperatureChart.tsx:47 | reading back the digits of `String(n)` gives `n` |
| JsText.PadStart2 | weather-spa/src/components/weather/TemperatureChart.tsx:48 | `padStart(2, '0')` keeps the string as its suffix and fills up to two characters with zeros |
| JsText.DecimalValueOfPadded | weather-spa/src/components/weather/TemperatureChart.tsx:48 | zero-padding a number's digits keeps its value |
| CityList.LoadCities | weather-spa/src/app/page.tsx:11-23 | never fails; the parsed array unchanged when storage holds one, and `[]` outside a browser, for no item, the empty string, unparsable text or a non-array |
| CityList.Serialized | weather-spa/src/app/page.tsx:39 | the item the effect writes: the value `JSON.parse` gives back for `JSON.stringify(cities)`, an array of the same strings |
| CityList.LoadAfterSave | weather-spa/src/app/page.tsx:39 | what the effect writes loads back as the same list, under the stringify and parse assumption that `Serialized` records |
| CityList.AddCity | weather-spa/src/app/page.tsx:42-53 | the old list is a prefix of the new one; the list grows by one exactly when `setCities` is called, and then by the trimmed draft; the draft is kept or cleared, and kept non-empty only when blank |
| CityList.AddReplacesOnlyForNew | weather-spa/src/app/page.tsx:43-51 | `setCities` is reached only for a non-empty trimmed draft that is not yet listed |
| CityList.AddBlankIsNoOp | weather-spa/src/app/page.tsx:43-44 | a blank draft leaves the list and the draft unchanged |
| CityList.AddDuplicateClearsDraft | weather-spa/src/app/page.tsx:46-49 | a draft whose trimmed form is already listed (exact match) leaves the list and clears the draft |
| CityList.AddNewAppends | weather-spa/src/app/page.tsx:51-52 | any other draft appends its trimmed, non-empty form at the end and clears the draft |
| CityList.AddKeepsDistinct | weather-spa/src/app/page.tsx:46-52 | a duplicate-free list stays duplicate-free, and a new entry is non-empty and trimmed |
| CityList.AddMembership | weather-spa/src/app/page.tsx:42-53 | a city is listed after add exactly when it was before or it is the trimmed non-blank draft |
| CityList.AddTwiceIsAddOnce | weather-spa/src/app/page.tsx:46-49 | adding the same draft a second time adds nothing |
| CityList.RemoveCity | weather-spa/src/app/page.tsx:56 | the result holds exactly the entries different from the city, each as often as before, and never the city |
| CityList.RemoveCityConcat | weather-spa/src/app/page.tsx:56 | removal works piecewise over a concatenation, so the kept entries keep their relative order |
| CityList.RemoveAbsentIsNoOp | weather-spa/src/app/page.tsx:56 | removing a city that is not listed gives the same list |
| CityList.RemoveKeepsDistinct | weather-spa/src/app/page.tsx:56 | removal keeps a duplicate-free list duplicate-free |
| CityList.RemoveUndoesAdd | weather-spa/src/app/page.tsx:51-56 | deleting the city just added restores the list from before the add |
| CityList.SelectionAfterRemove | weather-spa/src/app/page.tsx:58-60 | the selection is cleared exactly when it equals the removed city and otherwise untouched |
| CityList.IsSelected | weather-spa/src/app/page.tsx:97 | the truthiness test of `selectedCity`: not null and not the empty string |
| CityList.View | weather-spa/src/app/page.tsx:97-112 | details exactly for a truthy selection (not null, not empty); otherwise the empty-list message exactly for an empty list; otherwise one card per city in list order |
| CityList.RemoveSelectedShowsList | weather-spa/src/app/page.tsx:55-61 | removing the city whose details are open returns the page to the list |
| CityList.RemoveOtherKeepsView | weather-spa/src/app/page.tsx:55-61 | removing another city keeps open details, and in list view drops exactly that city's cards |
| HomePage.Home.constructor | weather-spa/src/app/page.tsx:26-29 | mount: the list is the loaded one, the draft empty, nothing selected, the first-mount flag set, storage untouched, the mount run of the effect due and no change pending |
| HomePage.Home.SetNewCity | weather-spa/src/app/page.tsx:83 | typing replaces the draft only |
| HomePage.Home.AddCity | weather-spa/src/app/page.tsx:42-53 | the new list and draft are those of `CityList.AddCity`; the save is due only when the list was replaced; selection and storage unchanged |
| HomePage.Home.RemoveCity | weather-spa/src/app/page.tsx:55-61 | the new list is the filtered one, the selection follows `SelectionAfterRemove`, and a save is due |
| HomePage.Home.OpenDetails | weather-spa/src/app/page.tsx:63-65 | the selection becomes the city; list, draft and storage unchanged |
| HomePage.Home.BackToList | weather-spa/src/app/page.tsx:67-69 | the selection is cleared; list, draft and storage unchanged |
| HomePage.Home.RunEffect | weather-spa/src/app/page.tsx:31-40 | one run of the effect: outside a browser nothing changes; while the first-mount flag is set it is only cleared; otherwise the current list is written |
| HomePage.Home.AfterRender | weather-spa/src/app/page.tsx:31-40 | the due runs are flushed, the mount run first: afterwards the first-mount flag is clear in a browser, and storage is overwritten with the current list exactly when the list was replaced since the last flush, even before the mount run, and is otherwise left as it was; outside a browser nothing is written |
| WeatherData.UpdateButtonFor | weather-spa/src/components/weather/CityCard.tsx:62-69 | disabled exactly while fetching, labelled "Updating..." exactly then and "Update now" otherwise |
| WeatherData.Description | weather-spa/src/components/weather/CityCard.tsx:49 | the first condition's description, and nothing when there is no condition |
| TemperatureChart.InWindow | weather-spa/src/components/weather/TemperatureChart.tsx:38-41 | an item belongs to the day when its time in milliseconds lies in the half-open window `[dayStart, nextDayStart)` |
| TemperatureChart.TimeLabel | weather-spa/src/components/weather/TemperatureChart.tsx:46-49 | on the hour the label is `String(hours)` followed by `:00`; otherwise, for values below 100, it is two digits, a colon and two digits |
| TemperatureChart.TimeLabelRoundTrip | weather-spa/src/components/weather/TemperatureChart.tsx:44-49 | the hour before and the minute after the colon of a label give back the time it was made from, so distinct times have distinct labels |
| TemperatureChart.TimeLabelLength | weather-spa/src/components/weather/TemperatureChart.tsx:44-49 | a clock time's label has four or five characters, four exactly for a one-digit hour on the hour (`H:00`) |
| TemperatureChart.ToPoint | weather-spa/src/components/weather/TemperatureChart.tsx:42-57 | a point carries its item's rounded temperature, hour and minute, and its label reads back as that hour and minute |
| TemperatureChart.KeepInWindow | weather-spa/src/components/weather/TemperatureChart.tsx:37-41 | the filter never keeps more items than the input has |
| TemperatureChart.KeepInWindowMembership | weather-spa/src/components/weather/TemperatureChart.tsx:37-41 | an item is kept exactly when it is in the input and `dayStart <= dt*1000 < nextDayStart` |
| TemperatureChart.WindowIndices | weather-spa/src/components/weather/TemperatureChart.tsx:37-41 | the positions of in-window items are valid input positions in strictly increasing order |
| TemperatureChart.WindowIndicesComplete | weather-spa/src/components/weather/TemperatureChart.tsx:37-41 | a position is listed exactly when its item is in the window |
| TemperatureChart.KeptAtWindowIndices | weather-spa/src/components/weather/TemperatureChart.tsx:37-41 | the k-th kept item is the item at the k-th in-window position |
| TemperatureChart.ToPoints | weather-spa/src/components/weather/TemperatureChart.tsx:42-58 | one chart point per kept item |
| TemperatureChart.ChartData | weather-spa/src/components/weather/TemperatureChart.tsx:28-63 | chart data exists exactly when the input is present and some item is in the window; it is never empty and never longer than the input |
| TemperatureChart.ChartDataCorrespondence | weather-spa/src/components/weather/TemperatureChart.tsx:37-58 | the points correspond one to one and in order to the in-window items, each labelled from its item |
| TemperatureChart.Render | weather-spa/src/components/weather/TemperatureChart.tsx:70-83 | the "No data to display the graph" state exactly when there is no chart data; otherwise the chart draws exactly the chart data |
| TemperatureChart.RenderEmptyCases | weather-spa/src/components/weather/TemperatureChart.tsx:29-60 | a null or empty input, or one with no item in the window, renders the empty state |
| TemperatureChart.FormatXAxis | weather-spa/src/components/weather/TemperatureChart.tsx:85-94 | a tick with no point is returned unchanged; a point's tick keeps its text exactly when the chart has at most 10 points, the point is on the hour, or it is first or last, and is `""` otherwise |
| TemperatureChart.ChartTicksShown | weather-spa/src/components/weather/TemperatureChart.tsx:89-93 | on a chart built from forecast items, first, last and on-the-hour ticks are shown, and every tick of a chart of at most ten points |
| CityCard.BodyFor | weather-spa/src/components/weather/CityCard.tsx:30-59 | loading, else error ("Check the city name"), else the weather block with the data, else "No data available.", each exactly under its condition |
| CityCard.Render | weather-spa/src/components/weather/CityCard.tsx:20-69 | the title is the city in every state; the country line appears exactly for data with a non-empty country; the update button is the shared one for the fetching flag: disabled and labelled "Updating..." exactly while fetching, "Update now" otherwise |
| CityCard.Click | weather-spa/src/components/weather/CityCard.tsx:14-70 | title, temperature area and "Detailed information" call `onOpenDetails(city)` once; delete calls `onRemove(city)`; update calls `refetch` once unless disabled; the temperature area exists only with the weather block |
| CityCard.CardCallsCarryItsCity | weather-spa/src/components/weather/CityCard.tsx:14-25 | a card's callbacks are always given that card's city |
| CityDetails.QueriesSkipped | weather-spa/src/components/weather/CityDetails.tsx:15-25 | both queries are skipped exactly for the empty city name, the only falsy string |
| CityDetails.HourlyList | weather-spa/src/components/weather/CityDetails.tsx:83 | `hourlyData?.list` is present exactly when the hourly data and its list both are, and is then that list |
| CityDetails.HourlySectionFor | weather-spa/src/components/weather/CityDetails.tsx:83-100 | the section exists exactly for a list, a load in progress or an error; loading, else error, else the chart of the list; the trailing blank branch never occurs |
| CityDetails.MainFor | weather-spa/src/components/weather/CityDetails.tsx:40-113 | loading, else error, else no data, else the detail card with title `name, country`, description, hourly section and the shared update button for the current query's fetching flag ("Updating..." and disabled exactly while it fetches) |
| CityDetails.Render | weather-spa/src/components/weather/CityDetails.tsx:27-115 | the heading "Detailed weather: {city}" in every state above the main part |
| CityDetails.UpdateIgnoresHourly | weather-spa/src/components/weather/CityDetails.tsx:102-110 | the hourly query's state has no effect on whether the detail card or its update button is shown |
| CityDetails.Click | weather-spa/src/components/weather/CityDetails.tsx:29-110 | back calls `onBack` once in every state; update calls current-weather `refetch` once when the detail card is shown and it is not fetching, otherwise nothing |
| CityDetails.PanelFromPageIsNotSkipped | weather-spa/src/components/weather/CityDetails.tsx:15-25 | queries are skipped exactly for the empty city, and the page only opens the panel for a non-empty selection, so there they never are |

## Left out

- The query layer in `weather-spa/src/services/weatherApi.ts`: request keying, caching, deduplication, the meaning of `isLoading` and `isFetching`, and what `refetch` does all live in RTK Query, which is not part of this model. Hook results are inputs; no at-most-one-request-in-flight property is claimed.
- The hourly forecast hook: it is imported by `CityDetails.tsx` but not defined in `weatherApi.ts`, so its fetch steps are not modelled; its result is an input.
- Local time: `new Date`, `setHours` and `setDate` are replaced by the window `[dayStart, nextDayStart)` and each item's local hour and minute, given as inputs. Day length is not assumed, and invalid dates are not modelled.
- Floating point: `Math.round` of temperatures, and the feels-like, minimum, maximum and wind-speed figures shown in cards and the panel, are not carried; a forecast item carries its temperature already rounded.
- `localStorage`, `JSON.parse` and `JSON.stringify` are foreign calls: the saved item is a field holding what reading it would yield, and writing a list stores the value that parses back to it.
- CityList.LoadCities: arrays whose elements are not strings are not represented (parsed arrays hold strings in the model), although the source returns any array unchanged.
- `trim` uses ECMAScript's WhiteSpace and LineTerminator code points, with the Unicode space separators written out.
- React scheduling: renders, batching of state updates, Strict Mode's repeated effects and hydration are not modelled; `AfterRender` flushes the effect runs that are due, the mount run and one run after any number of `setCities` calls, in that order.
- HomePage.Home.AfterRender: always succeeds, whereas `setItem` at `page.tsx:39` can throw (a full or blocked storage) and the source does not catch it; a failed write is not modelled.
- CityCard.Render: the optional chaining through `sys` is not modelled, because `types/weather.ts` declares `sys` required; the country line depends on the country alone.
- Rendering: markup, styles, Chakra components, colour mode, the chart library, tooltip and axis labels, React `key`s, and the always-true form condition at `page.tsx:77`.
- TemperatureChart.FormatXAxis: the tick index is an integer; a fractional index is not modelled.
