/**
 * The two decision rules of the proxy server that are not plain forwarding:
 * the AppID check and the found / not-found decision of the app-details route.
 */
module ServerRoutes {
  import opened Wrappers
  import opened Text

  /** The `guess` query parameter as Express parses it: absent, given once, or repeated. */
  datatype QueryValue = Missing | Single(value: string) | Repeated(values: seq<string>)

  function Join(values: seq<string>): string {
    if values == [] then "" else if |values| == 1 then values[0] else values[0] + "," + Join(values[1..])
  }

  /**
   * `String(guess)`: `undefined` for a missing parameter, the value itself for
   * a single one, and for a repeated one the values joined, which always has a
   * comma in it.
   */
  function QueryString(q: QueryValue): (r: string)
    ensures q.Single? ==> r == q.value
    ensures q.Repeated? && |q.values| >= 2 ==> ',' in r
  {
    match q
    case Missing => JsString(None)
    case Single(v) => v
    case Repeated(vs) => if |vs| >= 2 then JoinHasComma(vs); Join(vs) else Join(vs)
  }

  /** `/api/check-appid/:appId`: correct exactly when the two string forms agree. */
  function CheckAppId(appId: string, guess: QueryValue): (correct: bool)
    ensures guess.Single? ==> (correct <==> guess.value == appId)
    ensures guess.Missing? ==> (correct <==> appId == "undefined")
  {
    appId == QueryString(guess)
  }

  /** Joining two or more values puts a comma into the result. */
  lemma {:induction false} JoinHasComma(values: seq<string>)
    requires |values| >= 2
    ensures ',' in Join(values)
  {
    assert Join(values) == values[0] + "," + Join(values[1..]);
    assert (values[0] + "," + Join(values[1..]))[|values[0]|] == ',';
  }

  /** A repeated `guess` parameter never matches an AppID without a comma. */
  lemma RepeatedGuessNeverMatches(appId: string, values: seq<string>)
    requires |values| >= 2 && ',' !in appId
    ensures !CheckAppId(appId, Repeated(values))
  {
  }

  /** The part of Steam's app-details answer the route reads. */
  datatype AppData = AppData(name: Option<string>, headerImage: Option<string>)

  /** One entry of the app-details answer; `data` is `None` when absent or falsy. */
  datatype AppEntry = AppEntry(success: bool, data: Option<AppData>)

  /** What the route answers: the app data, a 404, or a 500 when fetching failed. */
  datatype DetailsReply = Found(name: Option<string>, headerImage: Option<string>) | NotFound | ServerError

  /** `/api/appdetails/:appId` once Steam's answer `body` has been parsed. */
  function AppDetails(body: map<string, AppEntry>, appId: string): (r: DetailsReply)
    ensures r != ServerError
    ensures r.Found? <==> appId in body && body[appId].success && body[appId].data.Some?
    ensures r.Found? ==> r.name == body[appId].data.value.name && r.headerImage == body[appId].data.value.headerImage
  {
    if appId in body && body[appId].success && body[appId].data.Some? then
      Found(body[appId].data.value.name, body[appId].data.value.headerImage)
    else
      NotFound
  }
}
