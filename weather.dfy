/** The weather page: the table of eight condition categories, the outcome rules of
    `fetchWeather` over `loading`, `apiData` and `showWeather`, and the render gate. */
module Weather {
  import opened Wrappers
  import opened Seqs

  /** The icons of the categories. */
  datatype Icon = ClearIcon | RainIcon | SnowIcon | CloudsIcon | HazeIcon | SmokeIcon
                | MistIcon | DrizzleIcon | NotFoundIcon

  /** The image address of each icon. */
  function IconUrl(icon: Icon): string
  {
    match icon
    case ClearIcon => "https://cdn-icons-png.flaticon.com/512/6974/6974833.png"
    case RainIcon => "https://cdn-icons-png.flaticon.com/512/3351/3351979.png"
    case SnowIcon => "https://cdn-icons-png.flaticon.com/512/642/642102.png"
    case CloudsIcon => "https://cdn-icons-png.flaticon.com/512/414/414825.png"
    case HazeIcon => "https://cdn-icons-png.flaticon.com/512/1197/1197102.png"
    case SmokeIcon => "https://cdn-icons-png.flaticon.com/512/4380/4380458.png"
    case MistIcon => "https://cdn-icons-png.flaticon.com/512/4005/4005901.png"
    case DrizzleIcon => "https://cdn-icons-png.flaticon.com/512/3076/3076129.png"
    case NotFoundIcon => "https://cdn-icons-png.flaticon.com/512/4275/4275497.png"
  }

  /** One display category: a condition name (the source's `type`) and its icon. */
  datatype WeatherType = WeatherType(kind: string, img: Icon)

  const WeatherTypes: seq<WeatherType> := [
    WeatherType("Clear", ClearIcon),
    WeatherType("Rain", RainIcon),
    WeatherType("Snow", SnowIcon),
    WeatherType("Clouds", CloudsIcon),
    WeatherType("Haze", HazeIcon),
    WeatherType("Smoke", SmokeIcon),
    WeatherType("Mist", MistIcon),
    WeatherType("Drizzle", DrizzleIcon)
  ]

  /** The entry shown for a non-OK response. */
  const NotFound := WeatherType("Not Found", NotFoundIcon)

  /** The parsed response body: the place, and the `weather` list, each entry with its `main` condition if it has one. `weather` is
      `None` when the body has no such list, so that `data.weather[0]` throws. */
  datatype Payload = Payload(name: string, country: string, weather: Option<seq<Option<string>>>)

  /** How the request ended: `fetch` or `response.json()` threw, or a response arrived
      with `response.ok` and its parsed body. */
  datatype Outcome = Threw | Responded(ok: bool, data: Payload)

  /** The two pieces of state a request can change. */
  datatype Results = Results(apiData: Option<Payload>, showWeather: seq<WeatherType>)

  /** What the result area shows: the spinner, nothing, or the panel with the city
      header (when `apiData` is set) and the first selected category. */
  datatype View = Spinner | Blank | Panel(header: Option<Payload>, entry: WeatherType, image: string)

  /** `if (!cityName) return;`: an absent input or an empty string stops the request. */
  predicate CityGiven(city: Option<string>)
    ensures city.None? || city == Some("") ==> !CityGiven(city)
  {
    city.Some? && city.value != ""
  }

  /** `data.weather[0]?.main` for a list that exists: the first entry's condition, and
      none for an empty list. */
  function MainCondition(weather: seq<Option<string>>): (r: Option<string>)
    ensures weather == [] ==> r.None?
    ensures weather != [] ==> r == weather[0]
  {
    if weather == [] then None else weather[0]
  }

  /** No two categories share a name. */
  lemma KindsDistinct()
    ensures forall i, j :: 0 <= i < j < |WeatherTypes| ==> WeatherTypes[i].kind != WeatherTypes[j].kind
  {
  }

  function HasKind(main: Option<string>): WeatherType -> bool
  {
    (w: WeatherType) => main == Some(w.kind)
  }

  /** `WeatherTypes.filter((weather) => weather.type === main)`, over a given table. */
  function Select(table: seq<WeatherType>, main: Option<string>): (r: seq<WeatherType>)
    ensures forall w :: w in r ==> w in table && main == Some(w.kind)
    ensures forall w :: w in table && main == Some(w.kind) ==> w in r
  {
    Filter(table, HasKind(main))
  }

  /** A known condition selects exactly its own category. */
  lemma SelectKnown(i: nat)
    requires i < |WeatherTypes|
    ensures Select(WeatherTypes, Some(WeatherTypes[i].kind)) == [WeatherTypes[i]]
  {
    var main := Some(WeatherTypes[i].kind);
    KindsDistinct();
    FilterSingle(WeatherTypes, HasKind(main), i);
  }

  /** A condition that no category of the table names, or none at all, selects nothing. */
  lemma SelectUnknown(table: seq<WeatherType>, main: Option<string>)
    requires forall w :: w in table ==> main != Some(w.kind)
    ensures Select(table, main) == []
  {
    FilterNone(table, HasKind(main));
  }

  /** The selection never holds more than one category. */
  lemma SelectAtMostOne(main: Option<string>)
    ensures |Select(WeatherTypes, main)| <= 1
  {
    if i :| 0 <= i < |WeatherTypes| && main == Some(WeatherTypes[i].kind) {
      SelectKnown(i);
    } else {
      assert forall w :: w in WeatherTypes ==> main != Some(w.kind);
      SelectUnknown(WeatherTypes, main);
    }
  }

  /** The state a request leaves behind, from the state before it and its outcome:
      the `try` body, the `catch` that only logs, and what was already set when
      `data.weather[0]` threw. That expression is only evaluated inside the filter's
      callback, so over an empty table a body without `weather` does not throw and the
      selection is empty. */
  function Settled(table: seq<WeatherType>, before: Results, outcome: Outcome): (after: Results)
    ensures outcome.Threw? ==> after == before
    ensures outcome.Responded? && !outcome.ok ==> after == Results(before.apiData, [NotFound])
    ensures outcome.Responded? && outcome.ok ==> after.apiData == Some(outcome.data)
    ensures !(outcome.Responded? && outcome.ok) ==> after.apiData == before.apiData
    ensures outcome.Responded? && outcome.ok && outcome.data.weather.Some? ==>
      after.showWeather == Select(table, MainCondition(outcome.data.weather.value))
    ensures outcome.Responded? && outcome.ok && outcome.data.weather.None? ==>
      after.showWeather == (if table == [] then [] else before.showWeather)
  {
    match outcome
    case Threw => before
    case Responded(ok, data) =>
      if !ok then Results(before.apiData, [NotFound])
      else
        match data.weather
        case None => Results(Some(data), if table == [] then [] else before.showWeather)
        case Some(list) => Results(Some(data), Select(table, MainCondition(list)))
  }

  /** The result list never grows past one entry: from a state showing at most one
      category, every outcome leaves at most one. */
  lemma SettledAtMostOne(before: Results, outcome: Outcome)
    requires |before.showWeather| <= 1
    ensures |Settled(WeatherTypes, before, outcome).showWeather| <= 1
  {
    if outcome.Responded? && outcome.ok && outcome.data.weather.Some? {
      SelectAtMostOne(MainCondition(outcome.data.weather.value));
    }
  }

  /** The render of the result area. */
  function Display(loading: bool, r: Results): (v: View)
    ensures v.Spinner? <==> loading
    ensures v.Panel? <==> !loading && |r.showWeather| > 0
    ensures v.Panel? ==> v.header == r.apiData && v.entry == r.showWeather[0]
    ensures v.Panel? ==> v.image == IconUrl(v.entry.img)
  {
    if loading then Spinner
    else if |r.showWeather| > 0 then Panel(r.apiData, r.showWeather[0], IconUrl(r.showWeather[0].img))
    else Blank
  }

  /** A successful lookup whose condition selects one category shows it under the new
      place. */
  lemma SelectedShown(table: seq<WeatherType>, before: Results, data: Payload, list: seq<Option<string>>, w: WeatherType)
    requires data.weather == Some(list) && Select(table, MainCondition(list)) == [w]
    ensures Display(false, Settled(table, before, Responded(true, data))) == Panel(Some(data), w, IconUrl(w.img))
  {
  }

  /** A successful lookup of a known condition shows that category under the new
      place. */
  lemma KnownConditionShown(before: Results, data: Payload, list: seq<Option<string>>, i: nat)
    requires data.weather == Some(list) && i < |WeatherTypes|
    requires MainCondition(list) == Some(WeatherTypes[i].kind)
    ensures Display(false, Settled(WeatherTypes, before, Responded(true, data))) == Panel(Some(data), WeatherTypes[i], IconUrl(WeatherTypes[i].img))
  {
    SelectKnown(i);
    SelectedShown(WeatherTypes, before, data, list, WeatherTypes[i]);
  }

  /** A successful lookup of a condition outside the table shows nothing at all. */
  lemma UnknownConditionBlank(table: seq<WeatherType>, before: Results, data: Payload, list: seq<Option<string>>)
    requires data.weather == Some(list)
    requires forall w :: w in table ==> MainCondition(list) != Some(w.kind)
    ensures Display(false, Settled(table, before, Responded(true, data))) == Blank
  {
    SelectUnknown(table, MainCondition(list));
  }

  /** A non-OK response shows "Not Found", under whatever place the previous successful
      lookup left in `apiData`. */
  lemma NotFoundShown(before: Results, data: Payload)
    ensures Display(false, Settled(WeatherTypes, before, Responded(false, data))) == Panel(before.apiData, NotFound, IconUrl(NotFoundIcon))
  {
  }

  class WeatherPage {
    var apiData: Option<Payload>
    var showWeather: seq<WeatherType>
    var loading: bool
    /** The category table the page selects from. */
    const table: seq<WeatherType>

    constructor ()
      ensures table == WeatherTypes
      ensures apiData == None && showWeather == [] && !loading
    {
      table := WeatherTypes;
      apiData := None;
      showWeather := [];
      loading := false;
    }

    function Current(): Results
      reads this
    {
      Results(apiData, showWeather)
    }

    /** The result area as rendered from the current state. */
    function Shown(): View
      reads this
    {
      Display(loading, Current())
    }

    /** `fetchWeather` up to its first `await`: the input check, then `setLoading(true)`. */
    method StartFetch(city: Option<string>) returns (started: bool)
      modifies this
      ensures started == CityGiven(city)
      ensures !started ==> unchanged(this)
      ensures started ==> loading && Shown() == Spinner
      ensures Current() == old(Current())
    {
      if !CityGiven(city) {
        return false;
      }
      loading := true;
      started := true;
    }

    /** `fetchWeather` after its `await`s: the outcome's updates, then the `finally`. */
    method FinishFetch(outcome: Outcome)
      modifies this
      ensures !loading
      ensures Current() == Settled(table, old(Current()), outcome)
    {
      match outcome {
        case Threw =>
        case Responded(ok, data) =>
          if ok {
            apiData := Some(data);
            if data.weather.Some? {
              showWeather := Select(table, MainCondition(data.weather.value));
            } else if table == [] {
              // the filter runs no callback, so nothing throws
              showWeather := [];
            }
          } else {
            showWeather := [NotFound];
          }
      }
      loading := false;
    }

    /** One click of the search button, with the request ending in `outcome`. */
    method FetchWeather(city: Option<string>, outcome: Outcome)
      modifies this
      ensures !CityGiven(city) ==> unchanged(this)
      ensures CityGiven(city) ==> !loading && Current() == Settled(table, old(Current()), outcome)
    {
      var started := StartFetch(city);
      if started {
        FinishFetch(outcome);
      }
    }
  }
}
