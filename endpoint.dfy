/** determine_api_url: the fixed table that maps a supported profile URL to the
    metadata endpoint and to the static file host of its platform. */
module Endpoint {
  import opened Wrappers
  import opened Errors
  import opened StrReplace

  /** One supported platform: inputs start with https://<host>/<platform>/user/. */
  datatype Route = Route(host: string, platform: string, dataUrl: string)

  const KemonoPatreon := Route("kemono.su", "patreon", "https://n4.kemono.su/data")
  const CoomerOnlyFans := Route("coomer.su", "onlyfans", "https://n3.coomer.su/data/")
  const CoomerFansly := Route("coomer.su", "fansly", "https://n3.coomer.su/data/")

  function UserPrefix(route: Route): string {
    "https://" + route.host + "/" + route.platform + "/user/"
  }

  /** The path segment that the rewrite looks for, e.g. "/patreon/". */
  function PlatformSegment(route: Route): string {
    "/" + route.platform + "/"
  }

  /** What that segment becomes, e.g. "/api/v1/patreon/". */
  function ApiSegment(route: Route): string {
    "/api/v1/" + route.platform + "/"
  }

  function ApiUserPrefix(route: Route): string {
    "https://" + route.host + "/api/v1/" + route.platform + "/user/"
  }

  /** input_url.replace("/<platform>/", "/api/v1/<platform>/"). */
  function ApiUrl(inputUrl: string, route: Route): (r: string)
    ensures !Occurs(inputUrl, PlatformSegment(route)) ==> r == inputUrl
  {
    ReplaceAllWithoutOccurrence(inputUrl, PlatformSegment(route), ApiSegment(route));
    ReplaceAll(inputUrl, PlatformSegment(route), ApiSegment(route))
  }

  predicate Supported(inputUrl: string) {
    || StartsWith(inputUrl, UserPrefix(KemonoPatreon))
    || StartsWith(inputUrl, UserPrefix(CoomerOnlyFans))
    || StartsWith(inputUrl, UserPrefix(CoomerFansly))
  }

  /** The (API URL, base URL) pair for a supported input; any other input is fatal. */
  function DetermineApiUrl(inputUrl: string): (r: Result<(string, string), FatalError>)
    ensures r.Success? <==> Supported(inputUrl)
    ensures r.Failure? ==> r.error == InvalidUrl
    ensures r.Success? ==> r.value.1 in {KemonoPatreon.dataUrl, CoomerOnlyFans.dataUrl}
  {
    if StartsWith(inputUrl, UserPrefix(KemonoPatreon)) then
      Success((ApiUrl(inputUrl, KemonoPatreon), KemonoPatreon.dataUrl))
    else if StartsWith(inputUrl, UserPrefix(CoomerOnlyFans)) then
      Success((ApiUrl(inputUrl, CoomerOnlyFans), CoomerOnlyFans.dataUrl))
    else if StartsWith(inputUrl, UserPrefix(CoomerFansly)) then
      Success((ApiUrl(inputUrl, CoomerFansly), CoomerFansly.dataUrl))
    else
      Failure(InvalidUrl)
  }

  predicate WellFormedRoute(route: Route) {
    && route.host != [] && route.platform != []
    && '/' !in route.host && '/' !in route.platform
    && route.host[0] != route.platform[0]
  }

  /** A supported URL cut where the rewrite scans it. */
  lemma UserUrlParts(route: Route, rest: string)
    ensures UserPrefix(route) + rest
         == "https:" + ("/" + ("/" + (route.host + (PlatformSegment(route) + ("user" + ("/" + rest))))))
  {
  }

  /** The rewritten pieces read back as one URL. */
  lemma ApiUrlParts(route: Route, r: string)
    ensures "https:" + ("/" + ("/" + (route.host + (ApiSegment(route) + ("user" + r)))))
         == "https://" + route.host + ApiSegment(route) + "user" + r
  {
  }

  /** Rewriting a supported URL: the scheme and host are copied, the platform
      segment right after them is rewritten, and the replacement goes on over
      the rest, starting with the slash that ends "/user/". */
  lemma RewriteUserUrl(route: Route, rest: string)
    requires WellFormedRoute(route)
    ensures ApiUrl(UserPrefix(route) + rest, route)
         == "https://" + route.host + ApiSegment(route) + "user"
            + ReplaceAll("/" + rest, PlatformSegment(route), ApiSegment(route))
  {
    var seg, api := PlatformSegment(route), ApiSegment(route);
    var host := route.host;
    var s1 := "/" + rest;
    var tail := "user" + s1;
    var s5 := seg + tail;
    var s4 := host + s5;
    var s3 := "/" + s4;
    var s2 := "/" + s3;
    var r1 := ReplaceAll(s1, seg, api);
    var r5 := api + ("user" + r1);
    assert ReplaceAll(s5, seg, api) == r5 by {
      ReplaceAllMatchAtStart(seg, tail, api);
      assert '/' !in "user";
      ReplaceAllSkipsPrefix("user", s1, seg, api);
    }
    var r4 := host + r5;
    assert ReplaceAll(s4, seg, api) == r4 by {
      ReplaceAllSkipsPrefix(host, s5, seg, api);
    }
    var r3 := "/" + r4;
    assert ReplaceAll(s3, seg, api) == r3 by {
      assert s3[1..] == s4;
      ReplaceAllNoMatchAtStart(s3, seg, api);
    }
    var r2 := "/" + r3;
    assert ReplaceAll(s2, seg, api) == r2 by {
      assert s2[1..] == s3;
      ReplaceAllNoMatchAtStart(s2, seg, api);
    }
    assert ReplaceAll("https:" + s2, seg, api) == "https:" + r2 by {
      assert '/' !in "https:";
      ReplaceAllSkipsPrefix("https:", s2, seg, api);
    }
    UserUrlParts(route, rest);
    ApiUrlParts(route, r1);
  }

  /** Each supported prefix reaches its own branch of the chain. */
  lemma RouteSelected(route: Route, rest: string)
    requires route in {KemonoPatreon, CoomerOnlyFans, CoomerFansly}
    ensures DetermineApiUrl(UserPrefix(route) + rest)
         == Success((ApiUrl(UserPrefix(route) + rest, route), route.dataUrl))
  {
    var input := UserPrefix(route) + rest;
    assert StartsWith(input, UserPrefix(route));
    if route != KemonoPatreon {
      assert input[8] == 'c';
      assert UserPrefix(KemonoPatreon)[8] == 'k';
      if route == CoomerFansly {
        assert input[18] == 'f';
        assert UserPrefix(CoomerOnlyFans)[18] == 'o';
      }
    }
  }

  /** The rewritten URL starts with https://<host>/api/v1/<platform>/user/ and,
      when the remainder holds no further platform segment, is exactly that
      prefix followed by the remainder. */
  lemma ApiUrlOfUserUrl(route: Route, rest: string)
    requires WellFormedRoute(route)
    ensures StartsWith(ApiUrl(UserPrefix(route) + rest, route), ApiUserPrefix(route))
    ensures !Occurs("/" + rest, PlatformSegment(route))
            ==> ApiUrl(UserPrefix(route) + rest, route) == ApiUserPrefix(route) + rest
  {
    var seg, api := PlatformSegment(route), ApiSegment(route);
    RewriteUserUrl(route, rest);
    var replaced := ReplaceAll("/" + rest, seg, api);
    ReplaceAllKeepsFirst("/" + rest, seg, api);
    var head := "https://" + route.host + api + "user";
    assert head + "/" == ApiUserPrefix(route);
    assert replaced == "/" + replaced[1..];
    if !Occurs("/" + rest, seg) {
      ReplaceAllWithoutOccurrence("/" + rest, seg, api);
    }
  }

  /** What determine_api_url returns for each supported prefix: the route's base
      URL and a rewritten API URL of the shape described by ApiUrlOfUserUrl. */
  lemma DetermineApiUrlOfRoute(route: Route, rest: string)
    requires route in {KemonoPatreon, CoomerOnlyFans, CoomerFansly}
    ensures DetermineApiUrl(UserPrefix(route) + rest).Success?
    ensures DetermineApiUrl(UserPrefix(route) + rest).value.1 == route.dataUrl
    ensures StartsWith(DetermineApiUrl(UserPrefix(route) + rest).value.0, ApiUserPrefix(route))
    ensures !Occurs("/" + rest, PlatformSegment(route))
            ==> DetermineApiUrl(UserPrefix(route) + rest).value.0 == ApiUserPrefix(route) + rest
  {
    RouteSelected(route, rest);
    assert WellFormedRoute(route);
    ApiUrlOfUserUrl(route, rest);
  }
}
