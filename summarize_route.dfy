/**
 * The POST handler of the summarize route. One request runs through a
 * linear gate with early exits:
 *
 *   validate the trimmed URL -> extract the bearer token -> verify the session
 *   -> read today's usage -> compare with the daily limit -> run the
 *   summarization pipeline -> insert or bump the usage record -> respond.
 *
 * The authentication provider and the summarization pipeline are given as
 * functions (`Env`); the usage table is a `UsageTable` object. Handle is the
 * specification of one request, Post the step-by-step handler proved equal
 * to it, and the lemmas state what the handler promises.
 */
module SummarizeRoute {
  import opened Wrappers
  import opened JsString
  import opened DaadLink
  import opened Usage

  /** What the authentication provider answers for a token: an error flag and the user, if any. */
  datatype AuthReply = AuthReply(failed: bool, user: Option<UserId>)

  /** The pipeline's answer: a 2xx reply with its `outputs.output_0` field, if present, or a failure and its body text. */
  datatype Upstream = UpstreamOk(output: Option<string>) | UpstreamErr(body: string)

  /** The JSON body's `url` (None when missing or falsy) and the Authorization header, if sent. */
  datatype Request = Request(url: Option<string>, authorization: Option<string>)

  /** The world one request meets: the two collaborators, today's date and the premium flag. */
  datatype Env = Env(verify: string -> AuthReply, pipeline: string -> Upstream, today: Day, premium: bool)

  /** An error reply `{ message }` with its HTTP status, or the status-200 reply `{ markdown }`. */
  datatype Response = Reject(status: nat, message: string) | Summary(markdown: string)

  /** One interaction with a collaborator, in the order the handler performs them. */
  datatype Effect =
    | VerifyToken(token: string)
    | ReadUsage(key: Key)
    | RunPipeline(url: string)
    | InsertUsage(key: Key, count: nat)
    | UpdateUsage(key: Key, count: nat)

  /** The response, the interactions and the usage table after one request. */
  datatype Outcome = Outcome(response: Response, effects: seq<Effect>, rows: map<Key, nat>)

  const InvalidLinkMessage: string := "Invalid DAAD link."
  const NotAuthenticatedMessage: string := "Not authenticated"
  const InvalidSessionMessage: string := "Invalid session"
  const QuotaMessage: string := "Daily quota reached. Upgrade to Premium for a higher limit."
  const UpstreamErrorPrefix: string := "Vectorshift error: "

  /** `(body?.url || "").trim()`. */
  function SubmittedUrl(url: Option<string>): string {
    Trim(url.GetOr(""))
  }

  /** The access token: the header without its first seven characters, when it starts with "Bearer ". */
  function BearerToken(authorization: Option<string>): (t: Option<string>)
    ensures t.Some? <==> authorization.Some? && "Bearer " <= authorization.value
    ensures t.Some? ==> authorization.value == "Bearer " + t.value
  {
    match authorization
    case Some(h) => if "Bearer " <= h then Some(h[7..]) else None
    case None => None
  }

  /** `vsData?.outputs?.output_0 ?? ""`. */
  function MarkdownOf(output: Option<string>): string {
    output.GetOr("")
  }

  /** The key a request is charged to, when it gets past authentication. */
  function ChargedKey(req: Request, env: Env): Option<Key> {
    var token := BearerToken(req.authorization);
    if !IsDaadLink(SubmittedUrl(req.url)) || token.None? || token.value == "" then None
    else
      var reply := env.verify(token.value);
      if reply.failed || reply.user.None? then None else Some(Key(reply.user.value, env.today))
  }

  /** What one request does to a usage table holding `rows`: first the URL check. */
  function Handle(req: Request, env: Env, rows: map<Key, nat>): Outcome {
    var url := SubmittedUrl(req.url);
    if !IsDaadLink(url) then Outcome(Reject(400, InvalidLinkMessage), [], rows)
    else Authenticate(url, req.authorization, env, rows)
  }

  /** The token check and the session check. */
  function Authenticate(url: string, authorization: Option<string>, env: Env, rows: map<Key, nat>): Outcome {
    var token := BearerToken(authorization);
    if token.None? || token.value == "" then Outcome(Reject(401, NotAuthenticatedMessage), [], rows)
    else
      var reply := env.verify(token.value);
      if reply.failed || reply.user.None? then
        Outcome(Reject(401, InvalidSessionMessage), [VerifyToken(token.value)], rows)
      else
        CheckQuota(url, [VerifyToken(token.value)], Key(reply.user.value, env.today), env, rows)
  }

  /** The quota check for an authenticated user; `done` holds the interactions so far. */
  function CheckQuota(url: string, done: seq<Effect>, key: Key, env: Env, rows: map<Key, nat>): Outcome {
    var checked := done + [ReadUsage(key)];
    if UsedToday(rows, key) >= DailyLimit(env.premium) then Outcome(Reject(429, QuotaMessage), checked, rows)
    else Forward(url, checked, key, env, rows)
  }

  /** The pipeline call and, on success, the usage write. */
  function Forward(url: string, done: seq<Effect>, key: Key, env: Env, rows: map<Key, nat>): Outcome {
    var used := UsedToday(rows, key);
    var called := done + [RunPipeline(url)];
    match env.pipeline(url)
    case UpstreamErr(body) => Outcome(Reject(502, UpstreamErrorPrefix + body), called, rows)
    case UpstreamOk(output) =>
      var write := if key in rows then UpdateUsage(key, used + 1) else InsertUsage(key, 1);
      Outcome(Summary(MarkdownOf(output)), called + [write], rows[key := used + 1])
  }

  /** The handler, step by step against the usage table: the URL check, then the rest. */
  method Post(table: UsageTable, req: Request, env: Env) returns (response: Response, effects: seq<Effect>)
    modifies table
    ensures Outcome(response, effects, table.rows) == Handle(req, env, old(table.rows))
  {
    var url := SubmittedUrl(req.url);
    if !IsDaadLink(url) {
      return Reject(400, InvalidLinkMessage), [];
    }
    response, effects := Serve(table, url, req.authorization, env);
  }

  /** Authentication, the quota gate, the pipeline call and the usage write for a valid URL. */
  method Serve(table: UsageTable, url: string, authorization: Option<string>, env: Env)
    returns (response: Response, effects: seq<Effect>)
    modifies table
    ensures Outcome(response, effects, table.rows) == Authenticate(url, authorization, env, old(table.rows))
  {
    var token := BearerToken(authorization);
    if token.None? || token.value == "" {
      return Reject(401, NotAuthenticatedMessage), [];
    }
    var reply := env.verify(token.value);
    effects := [VerifyToken(token.value)];
    if reply.failed || reply.user.None? {
      return Reject(401, InvalidSessionMessage), effects;
    }
    var user := reply.user.value;

    var key := Key(user, env.today);
    var row := table.Find(key);
    effects := effects + [ReadUsage(key)];
    var limit := DailyLimit(env.premium);
    var used := row.GetOr(0);
    if used >= limit {
      return Reject(429, QuotaMessage), effects;
    }

    var upstream := env.pipeline(url);
    effects := effects + [RunPipeline(url)];
    if upstream.UpstreamErr? {
      return Reject(502, UpstreamErrorPrefix + upstream.body), effects;
    }
    var markdown := MarkdownOf(upstream.output);

    if row.None? {
      table.Insert(key, 1);
      effects := effects + [InsertUsage(key, 1)];
    } else {
      table.Update(key, used + 1);
      effects := effects + [UpdateUsage(key, used + 1)];
    }
    response := Summary(markdown);
  }
}
