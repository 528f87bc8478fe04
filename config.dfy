/** Endpoint records as the configuration file lists them, and the
    defaulting of the request method (app.py, loadConfig). */
module Config {
  import opened Wrappers

  /** The method an endpoint without a `method` key is requested with. */
  const DefaultMethod: string := "GET"

  /** One endpoint mapping: `url` is required; `method` (here `httpMethod`),
      `headers` and `body` are optional keys (None when the key is absent). */
  datatype Endpoint = Endpoint(
    url: string,
    httpMethod: Option<string>,
    headers: Option<map<string, string>>,
    body: Option<string>)

  /** The loop body of loadConfig: supply the method when the key is missing. */
  function WithDefaultMethod(e: Endpoint): (r: Endpoint)
    ensures r.httpMethod.Some?
    ensures r.url == e.url && r.headers == e.headers && r.body == e.body
    ensures e.httpMethod.Some? ==> r.httpMethod == e.httpMethod
    ensures e.httpMethod.None? ==> r.httpMethod == Some(DefaultMethod)
  {
    if e.httpMethod.None? then e.(httpMethod := Some(DefaultMethod)) else e
  }
}
