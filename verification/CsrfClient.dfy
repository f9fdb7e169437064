// The browser's API client composed with the server's CSRF check: the cached token, one
// retry after a 403, and the token the session holds.
module CsrfClient {
  import opened Text

  /** What becomes of a fetch: it gets through both ways; it never reaches the server; a rate
      limiter answers; the response is lost after the server has done its work; or only its
      status arrives and the body cannot be read. */
  datatype Net = Up | Down | Limited | Lost | Cut

  /** The route behind the check: refused by a later middleware without running the handler
      (requireAuth, requireAdmin, validation), or served by the handler. */
  datatype Route = Refuse(status: nat) | Serve(status: nat, ok: bool, data: string)

  datatype Response = Response(status: nat, ok: bool, data: string)

  datatype Result = Data(data: string) | NetworkError | SessionExpired | Failed(status: nat)

  /** The client's reading of a response it does not retry. */
  function Reading(r: Response): Result {
    if r.status == 401 then SessionExpired
    else if r.ok then Data(r.data)
    else Failed(r.status)
  }

  /** The response as the client sees it: without a readable body there is no `ok`. */
  function Arriving(n: Net, r: Response): Response {
    if n.Cut? then r.(ok := false) else r
  }

  function RouteResponse(route: Route): Response {
    match route
    case Refuse(status) => Response(status, false, "")
    case Serve(status, ok, data) => Response(status, ok, data)
  }

  /** The handler runs and answers 403 itself, which no handler of the program does: 403 comes
      from the CSRF check and from requireAdmin, both ahead of the handlers. */
  predicate Denies(route: Route) {
    route.Serve? && route.status == 403
  }

  /** A token is cached that is not the session's secret, as after signing in, which leaves the
      session without one. */
  predicate Stale(token: Option<string>, secret: Option<string>) {
    token.Some? && token != secret
  }

  class Server {
    /** session.csrfSecret. */
    var secret: Option<string>
    const route: Route
    /** The random value a session without a secret is given. */
    const random: string
    /** The fate of the coming fetches; afterwards all are up. */
    var net: seq<Net>
    var posts: nat
    var rejections: nat
    var handlerRuns: nat

    /** Success envelopes come with success statuses, and only with them. */
    ghost predicate Valid()
      reads this
    {
      && random != "" && secret != Some("")
      && (route.Serve? ==> (route.ok <==> route.status < 400))
      && (route.Refuse? ==> route.status >= 400)
    }

    constructor (route: Route, random: string, net: seq<Net>)
      requires random != ""
      requires route.Serve? ==> (route.ok <==> route.status < 400)
      requires route.Refuse? ==> route.status >= 400
      ensures Valid() && secret.None? && this.route == route && handlerRuns == 0
    {
      this.route, this.random, this.net := route, random, net;
      secret, posts, rejections, handlerRuns := None, 0, 0, 0;
    }

    ghost predicate AllUp()
      reads this
    {
      forall i :: 0 <= i < |net| ==> net[i] == Up
    }

    method Carry() returns (n: Net)
      modifies this`net
      ensures old(AllUp()) ==> n == Up && AllUp()
      ensures n == if |old(net)| == 0 then Up else old(net)[0]
    {
      if |net| == 0 {
        return Up;
      }
      n := net[0];
      net := net[1..];
    }

    /** GET /api/auth/csrf-token: the session's secret, created on first use. */
    method IssueToken() returns (response: Response)
      requires Valid()
      modifies this`secret
      ensures Valid() && response.status == 200 && response.ok
      ensures secret == Some(response.data) && response.data != ""
      ensures old(secret).Some? ==> secret == old(secret)
    {
      if secret.None? {
        secret := Some(random);
      }
      response := Response(200, true, secret.value);
    }

    /** A state-changing request: csrfProtection, then the route. */
    method Post(token: string) returns (response: Response)
      requires Valid()
      modifies this`posts, this`rejections, this`handlerRuns
      ensures Valid() && posts == old(posts) + 1
      ensures secret == Some(token) && token != "" ==>
        && response == RouteResponse(route) && rejections == old(rejections)
        && handlerRuns == old(handlerRuns) + (if route.Serve? then 1 else 0)
      ensures !(secret == Some(token) && token != "") ==>
        response == Response(403, false, "") && rejections == old(rejections) + 1 && handlerRuns == old(handlerRuns)
    {
      posts := posts + 1;
      if secret.None? || token == "" || token != secret.value {
        rejections := rejections + 1;
        return Response(403, false, "");
      }
      if route.Serve? {
        handlerRuns := handlerRuns + 1;
      }
      response := RouteResponse(route);
    }
  }

  class Client {
    /** The cached token; None before the first fetch and after a 403. */
    var csrfToken: Option<string>

    constructor ()
      ensures csrfToken.None?
    {
      csrfToken := None;
    }

    /** request('GET', '/api/auth/csrf-token'). */
    method Get(server: Server) returns (result: Result)
      requires server.Valid()
      modifies server`net, server`secret
      ensures server.Valid()
      ensures result.Data? ==> server.secret == Some(result.data) && result.data != ""
      ensures old(server.secret).Some? ==> server.secret == old(server.secret)
      ensures old(server.AllUp()) ==> server.AllUp() && result.Data?
    {
      var n := server.Carry();
      if n.Down? {
        return NetworkError;
      }
      if n.Limited? {
        return Failed(429);
      }
      var response := server.IssueToken();
      if n.Lost? {
        return NetworkError;
      }
      result := Reading(Arriving(n, response));
    }

    /** The cached token, or a fetched one; otherwise what the fetch throws. */
    method GetCsrfToken(server: Server) returns (result: Result)
      requires server.Valid() && csrfToken != Some("")
      modifies this, server`net, server`secret
      ensures server.Valid() && csrfToken != Some("")
      ensures result.Data? ==> csrfToken == Some(result.data)
      ensures !result.Data? ==> csrfToken == old(csrfToken)
      ensures old(csrfToken).Some? ==> result == Data(old(csrfToken).value) && server.secret == old(server.secret)
      ensures old(csrfToken).None? && result.Data? ==> server.secret == Some(result.data)
      ensures old(server.secret).Some? ==> server.secret == old(server.secret)
      ensures old(server.AllUp()) ==> server.AllUp() && result.Data?
    {
      if csrfToken.Some? {
        return Data(csrfToken.value);
      }
      result := Get(server);
      if result.Data? {
        csrfToken := Some(result.data);
      }
    }

    /** One fetch with a token: what arrives, if anything does, and what the server has done. A
        lost response is one the server has worked for; one cut short keeps its status. */
    method Send(server: Server, token: string) returns (arrived: Option<Response>)
      requires server.Valid()
      modifies server`net, server`posts, server`rejections, server`handlerRuns
      ensures server.Valid() && (old(server.AllUp()) ==> server.AllUp())
      ensures var n := if |old(server.net)| == 0 then Up else old(server.net)[0];
              var passes := token != "" && server.secret == Some(token);
              var reaches := n != Down && n != Limited;
              var answer := if passes then RouteResponse(server.route) else Response(403, false, "");
        && (n == Down || n == Lost ==> arrived == None)
        && (n == Limited ==> arrived == Some(Response(429, false, "")))
        && (n == Up ==> arrived == Some(answer))
        && (n == Cut ==> arrived == Some(Response(answer.status, false, answer.data)))
        && server.posts == old(server.posts) + (if reaches then 1 else 0)
        && server.rejections == old(server.rejections) + (if reaches && !passes then 1 else 0)
        && server.handlerRuns == old(server.handlerRuns)
             + (if reaches && passes && server.route.Serve? then 1 else 0)
    {
      var n := server.Carry();
      if n.Down? {
        return None;
      }
      if n.Limited? {
        return Some(Response(429, false, ""));
      }
      var response := server.Post(token);
      if n.Lost? {
        return None;
      }
      arrived := Some(Arriving(n, response));
    }

    /** request(method, path, body, retried) for a mutating method. Whatever token is cached
        and whatever the network does on the way there or back, there is at most one retry,
        and the CSRF check never refuses a retried request. The handler runs at most once
        unless it answers 403 itself; a lost response is not retried. When all fetches get
        through, the caller gets exactly the route's answer, and the handler runs twice if and
        only if it answers 403 to a first request that passed the check. Success is reported
        only for exactly one run; after a run whose response did not arrive whole, the caller
        may see an error instead of the answer. */
    method Mutate(server: Server, retried: bool) returns (result: Result)
      requires server.Valid() && csrfToken != Some("")
      requires retried ==> csrfToken.None?
      modifies this, server
      ensures server.Valid() && csrfToken != Some("")
      ensures server.posts <= old(server.posts) + (if retried then 1 else 2)
      ensures retried ==> server.rejections == old(server.rejections)
      ensures server.rejections <= old(server.rejections) + 1
      ensures server.route.Refuse? ==> server.handlerRuns == old(server.handlerRuns)
      ensures !Denies(server.route) ==> server.handlerRuns <= old(server.handlerRuns) + 1
      ensures server.handlerRuns <= old(server.handlerRuns) + (if retried then 1 else 2)
      ensures server.handlerRuns > old(server.handlerRuns) && !Denies(server.route) ==>
        || result == Reading(RouteResponse(server.route))
        || result == NetworkError || result == Failed(server.route.status)
      ensures result.Data? ==>
        server.route.Serve? && server.route.ok && server.handlerRuns == old(server.handlerRuns) + 1
      ensures old(server.AllUp()) ==> result == Reading(RouteResponse(server.route))
      ensures old(server.AllUp()) ==>
        server.rejections == old(server.rejections) + (if Stale(old(csrfToken), old(server.secret)) then 1 else 0)
      ensures old(server.AllUp()) && server.route.Serve? && server.route.ok ==> result == Data(server.route.data)
      ensures old(server.AllUp()) && server.route.status == 401 ==> result == SessionExpired
      ensures old(server.AllUp()) && server.route.status >= 400 && server.route.status != 401 ==>
        result == Failed(server.route.status)
      ensures old(server.AllUp()) && server.route.Serve? ==> server.handlerRuns > old(server.handlerRuns)
      ensures old(server.AllUp()) ==>
        (server.handlerRuns > old(server.handlerRuns) + 1 <==>
          !retried && Denies(server.route) && (old(csrfToken).None? || old(csrfToken) == old(server.secret)))
      ensures old(server.secret).Some? ==> server.secret == old(server.secret)
      decreases !retried
    {
      var token := GetCsrfToken(server);
      if !token.Data? {
        return token;
      }
      var arrived := Send(server, token.data);
      if arrived.None? {
        return NetworkError;
      }
      var response := arrived.value;
      if response.status == 401 {
        return SessionExpired;
      }
      if response.ok {
        return Data(response.data);
      }
      if response.status == 403 && !retried {
        csrfToken := None;
        result := Mutate(server, true);
        return;
      }
      result := Failed(response.status);
    }
  }
}
