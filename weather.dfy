/** The weather commands of src-tauri/src/weather.rs: current weather and the forecast for a date, each
    answered from a cache when it can. The HTTP exchange and JSON decoding are one given outcome per
    request, the clock is a parameter (seconds since the epoch), and the cache is a pair of maps. */
module Weather {
  import opened Wrappers

  /** `WeatherData`. Temperatures are reals in place of `f64`. */
  datatype WeatherData = WeatherData(
    temperature: real,
    feelsLike: real,
    humidity: nat,
    description: string,
    icon: string,
    location: string,
    date: string)

  datatype Main = Main(temp: real, feelsLike: real, humidity: nat)

  datatype Conditions = Conditions(description: string, icon: string)

  /** The decoded body of the current-weather endpoint. */
  datatype CurrentResponse = CurrentResponse(main: Main, weather: seq<Conditions>, name: string)

  datatype ForecastItem = ForecastItem(dt: int, main: Main, weather: seq<Conditions>, dtTxt: string)

  /** The decoded body of the forecast endpoint. */
  datatype ForecastResponse = ForecastResponse(list: seq<ForecastItem>, cityName: string)

  /** How a request went: the send failed, the status was not a success, the body could not be read or
      decoded, or a decoded response came back. Reasons and statuses are their display text. */
  datatype Exchange<R> =
    | SendFailed(reason: string)
    | StatusError(status: string)
    | BodyFailed(reason: string)
    | DecodeFailed(reason: string)
    | Received(response: R)

  /** The requests the commands send. */
  datatype Request = CurrentRequest(lat: real, lon: real) | ForecastRequest(lat: real, lon: real)

  const UNKNOWN_DESCRIPTION: string := "Unknown"
  const DEFAULT_ICON: string := "01d"
  const NO_FORECAST: string := "No forecast data available"
  const OUT_OF_RANGE: string := "Date must be today or within the next 5 days"
  const SECONDS_PER_DAY: int := 86400
  const FIVE_DAYS: int := 5 * 24 * 60 * 60

  /** The description and icon of the first listed condition, or "Unknown" and "01d" with none listed. */
  function Summary(weather: seq<Conditions>): (c: Conditions)
    ensures weather == [] ==> c == Conditions(UNKNOWN_DESCRIPTION, DEFAULT_ICON)
    ensures weather != [] ==> c == weather[0]
  {
    if weather == [] then Conditions(UNKNOWN_DESCRIPTION, DEFAULT_ICON) else weather[0]
  }

  /** The record built from a current-weather response, dated with the current time. */
  function FromCurrent(response: CurrentResponse, nowIso: string): (data: WeatherData)
    ensures data.temperature == response.main.temp && data.feelsLike == response.main.feelsLike
    ensures data.humidity == response.main.humidity
    ensures data.description == Summary(response.weather).description
    ensures data.icon == Summary(response.weather).icon
    ensures data.location == response.name && data.date == nowIso
  {
    var c := Summary(response.weather);
    WeatherData(response.main.temp, response.main.feelsLike, response.main.humidity, c.description, c.icon,
                response.name, nowIso)
  }

  /** The record built from the chosen forecast entry: its own text date and the city's name. */
  function FromForecast(item: ForecastItem, cityName: string): (data: WeatherData)
    ensures data.temperature == item.main.temp && data.feelsLike == item.main.feelsLike
    ensures data.humidity == item.main.humidity
    ensures data.description == Summary(item.weather).description && data.icon == Summary(item.weather).icon
    ensures data.location == cityName && data.date == item.dtTxt
  {
    var c := Summary(item.weather);
    WeatherData(item.main.temp, item.main.feelsLike, item.main.humidity, c.description, c.icon, cityName,
                item.dtTxt)
  }

  // ---------------------------------------------------------------------------
  // The forecast entry closest to the target
  // ---------------------------------------------------------------------------

  function Abs(x: int): nat { if x < 0 then -x else x }

  function Distance(item: ForecastItem, target: int): nat
  {
    Abs(item.dt - target)
  }

  /** `k` is the first index at which the distance to the target is least. */
  predicate FirstClosest(list: seq<ForecastItem>, target: int, k: int)
  {
    && 0 <= k < |list|
    && (forall j :: 0 <= j < |list| ==> Distance(list[k], target) <= Distance(list[j], target))
    && (forall j :: 0 <= j < k ==> Distance(list[j], target) > Distance(list[k], target))
  }

  /** `list.iter().min_by_key(|item| (item.dt - target).abs())`, as an index: the earlier entry wins a tie. */
  function Closest(list: seq<ForecastItem>, target: int): (k: Option<nat>)
    ensures k.None? <==> list == []
    ensures k.Some? ==> FirstClosest(list, target, k.value)
  {
    if list == [] then None
    else
      var init := list[..|list| - 1];
      var last := |list| - 1;
      var best := Closest(init, target);
      if best.None? || Distance(list[last], target) < Distance(init[best.value], target) then Some(last)
      else best
  }

  /** Only one index is the first closest, so `Closest` is determined by its contract. */
  lemma FirstClosestUnique(list: seq<ForecastItem>, target: int, k: int, other: int)
    requires FirstClosest(list, target, k) && 0 <= other < |list| && other != k
    ensures !FirstClosest(list, target, other)
  {
    if other < k {
      assert Distance(list[other], target) > Distance(list[k], target);
    } else {
      assert Distance(list[k], target) <= Distance(list[other], target);
    }
  }

  // ---------------------------------------------------------------------------
  // The date window
  // ---------------------------------------------------------------------------

  /** Midnight UTC of the day of `now`. */
  function StartOfToday(now: int): (start: int)
    ensures start <= now < start + SECONDS_PER_DAY && start % SECONDS_PER_DAY == 0
  {
    now - now % SECONDS_PER_DAY
  }

  /** A target the forecast command accepts: from the start of today to five days from now. */
  predicate InWindow(target: int, now: int)
  {
    StartOfToday(now) <= target <= now + FIVE_DAYS
  }

  /** Every instant from now to five days on is accepted; nothing earlier than today's midnight or later
      than five days on is, so the window is less than six days long. */
  lemma WindowShape(target: int, now: int)
    ensures now <= target <= now + FIVE_DAYS ==> InWindow(target, now)
    ensures InWindow(target, now) ==> now - SECONDS_PER_DAY < target
    ensures InWindow(target, now) ==> target - StartOfToday(now) < 6 * SECONDS_PER_DAY
  {
  }

  // ---------------------------------------------------------------------------
  // The outcome of a request
  // ---------------------------------------------------------------------------

  /** What `fetch_weather` returns once the request has been sent. */
  function CurrentOutcome(exchange: Exchange<CurrentResponse>, nowIso: string): (r: Result<WeatherData, string>)
    ensures r.Ok? <==> exchange.Received?
    ensures exchange.SendFailed? ==> r == Err("Failed to fetch weather: " + exchange.reason)
    ensures exchange.StatusError? ==> r == Err("Weather API error: " + exchange.status)
    ensures exchange.BodyFailed? ==> r == Err("Failed to read response body: " + exchange.reason)
    ensures exchange.DecodeFailed? ==> r == Err("Failed to parse weather data: " + exchange.reason)
    ensures exchange.Received? ==> r.value == FromCurrent(exchange.response, nowIso)
  {
    match exchange
    case SendFailed(reason) => Err("Failed to fetch weather: " + reason)
    case StatusError(status) => Err("Weather API error: " + status)
    case BodyFailed(reason) => Err("Failed to read response body: " + reason)
    case DecodeFailed(reason) => Err("Failed to parse weather data: " + reason)
    case Received(response) => Ok(FromCurrent(response, nowIso))
  }

  /** `data` is the record of the first forecast entry closest to the target. */
  ghost predicate RecordOfClosest(response: ForecastResponse, target: int, data: WeatherData)
  {
    exists k :: FirstClosest(response.list, target, k) && data == FromForecast(response.list[k], response.cityName)
  }

  /** What `fetch_forecast_for_date` returns once the request has been sent: the record of the first entry
      closest to the target, or an error. */
  function ForecastOutcome(exchange: Exchange<ForecastResponse>, target: int): (r: Result<WeatherData, string>)
    ensures r.Ok? <==> exchange.Received? && exchange.response.list != []
    ensures exchange.SendFailed? ==> r == Err("Failed to fetch forecast: " + exchange.reason)
    ensures exchange.StatusError? ==> r == Err("Forecast API error: " + exchange.status)
    ensures exchange.BodyFailed? ==> r == Err("Failed to read response body: " + exchange.reason)
    ensures exchange.DecodeFailed? ==> r == Err("Failed to parse forecast data: " + exchange.reason)
    ensures exchange.Received? && exchange.response.list == [] ==> r == Err(NO_FORECAST)
    ensures r.Ok? ==> RecordOfClosest(exchange.response, target, r.value)
  {
    match exchange
    case SendFailed(reason) => Err("Failed to fetch forecast: " + reason)
    case StatusError(status) => Err("Forecast API error: " + status)
    case BodyFailed(reason) => Err("Failed to read response body: " + reason)
    case DecodeFailed(reason) => Err("Failed to parse forecast data: " + reason)
    case Received(response) =>
      match Closest(response.list, target)
      case None => Err(NO_FORECAST)
      case Some(k) => Ok(FromForecast(response.list[k], response.cityName))
  }

  // ---------------------------------------------------------------------------
  // The commands and their cache
  // ---------------------------------------------------------------------------

  /** The process-wide weather cache with the requests sent so far. Keys are the coordinates (and, for
      forecasts, the date text) the value was looked up with. */
  class WeatherService {
    var current: map<(real, real), WeatherData>
    var forecast: map<(real, real, string), WeatherData>
    var requests: seq<Request>

    constructor ()
      ensures current == map[] && forecast == map[] && requests == []
    {
      current, forecast, requests := map[], map[], [];
    }

    /** `fetch_weather`: a cached value with no request at all; otherwise one request, and a successful
        result is cached under the same coordinates. `exchange` is how that request goes. */
    method FetchWeather(lat: real, lon: real, nowIso: string, exchange: Exchange<CurrentResponse>)
      returns (r: Result<WeatherData, string>)
      modifies this
      ensures forecast == old(forecast)
      ensures (lat, lon) in old(current) ==>
        r == Ok(old(current)[(lat, lon)]) && current == old(current) && requests == old(requests)
      ensures (lat, lon) !in old(current) ==>
        && requests == old(requests) + [CurrentRequest(lat, lon)]
        && r == CurrentOutcome(exchange, nowIso)
        && current == (if r.Ok? then old(current)[(lat, lon) := r.value] else old(current))
    {
      if (lat, lon) in current {
        return Ok(current[(lat, lon)]);
      }
      requests := requests + [CurrentRequest(lat, lon)];
      r := CurrentOutcome(exchange, nowIso);
      if r.Ok? {
        current := current[(lat, lon) := r.value];
      }
    }

    /** `fetch_forecast_for_date`: a cached value with no request; otherwise the date, once parsed
        (`parsed`, an RFC 3339 timestamp in seconds or the parser's message), must lie in the window
        before any request is sent, and a successful result is cached under the same key. */
    method FetchForecast(lat: real, lon: real, date: string, parsed: Result<int, string>, now: int,
                         exchange: Exchange<ForecastResponse>)
      returns (r: Result<WeatherData, string>)
      modifies this
      ensures current == old(current)
      ensures (lat, lon, date) in old(forecast) ==>
        r == Ok(old(forecast)[(lat, lon, date)]) && forecast == old(forecast) && requests == old(requests)
      ensures (lat, lon, date) !in old(forecast) && parsed.Err? ==>
        r == Err("Invalid date format: " + parsed.error) && forecast == old(forecast) && requests == old(requests)
      ensures (lat, lon, date) !in old(forecast) && parsed.Ok? && !InWindow(parsed.value, now) ==>
        r == Err(OUT_OF_RANGE) && forecast == old(forecast) && requests == old(requests)
      ensures (lat, lon, date) !in old(forecast) && parsed.Ok? && InWindow(parsed.value, now) ==>
        && requests == old(requests) + [ForecastRequest(lat, lon)]
        && r == ForecastOutcome(exchange, parsed.value)
        && forecast == (if r.Ok? then old(forecast)[(lat, lon, date) := r.value] else old(forecast))
    {
      if (lat, lon, date) in forecast {
        return Ok(forecast[(lat, lon, date)]);
      }
      if parsed.Err? {
        return Err("Invalid date format: " + parsed.error);
      }
      var target := parsed.value;
      var startOfToday := now - now % SECONDS_PER_DAY;
      if target < startOfToday || target > now + FIVE_DAYS {
        return Err(OUT_OF_RANGE);
      }
      requests := requests + [ForecastRequest(lat, lon)];
      r := ForecastOutcome(exchange, target);
      if r.Ok? {
        forecast := forecast[(lat, lon, date) := r.value];
      }
    }

    /** The cache drops an entry, as its time-to-live or its capacity makes it do. */
    method Evict(lat: real, lon: real, date: Option<string>)
      modifies this
      ensures date.None? ==> current == old(current) - {(lat, lon)} && forecast == old(forecast)
      ensures date.Some? ==> forecast == old(forecast) - {(lat, lon, date.value)} && current == old(current)
      ensures requests == old(requests)
    {
      if date.None? {
        current := current - {(lat, lon)};
      } else {
        forecast := forecast - {(lat, lon, date.value)};
      }
    }
  }

  /** Asking twice for the same forecast sends at most one request when the first answer was a success,
      and the second answer is then the first. */
  method RepeatedForecast(service: WeatherService, lat: real, lon: real, date: string,
                          parsed: Result<int, string>, now: int, first: Exchange<ForecastResponse>,
                          second: Exchange<ForecastResponse>)
    returns (r1: Result<WeatherData, string>, r2: Result<WeatherData, string>)
    modifies service
    ensures r1.Ok? ==> r2 == r1
    ensures r1.Ok? ==> |service.requests| <= |old(service.requests)| + 1
  {
    r1 := service.FetchForecast(lat, lon, date, parsed, now, first);
    r2 := service.FetchForecast(lat, lon, date, parsed, now, second);
  }
}
