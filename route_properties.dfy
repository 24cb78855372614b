/**
 * What the summarize route promises, stated about its specification Handle:
 * each rejection happens at its gate with the usage table untouched, a
 * success charges exactly one request to exactly one (user, day) record, and
 * over any sequence of requests each record counts the successes charged to it.
 */
module RouteProperties {
  import opened Wrappers
  import opened JsString
  import opened DaadLink
  import opened Usage
  import opened SummarizeRoute

  /** The number of usage writes (inserts or updates) among the interactions. */
  function Writes(effects: seq<Effect>): nat {
    if effects == [] then 0
    else (if effects[0].InsertUsage? || effects[0].UpdateUsage? then 1 else 0) + Writes(effects[1..])
  }

  lemma {:induction false} WritesAppend(a: seq<Effect>, b: seq<Effect>)
    ensures Writes(a + b) == Writes(a) + Writes(b)
  {
    if a == [] {
      assert a + b == b;
    } else {
      assert (a + b)[0] == a[0];
      assert (a + b)[1..] == a[1..] + b;
      WritesAppend(a[1..], b);
    }
  }

  /** No count exceeds the limit. */
  ghost predicate WithinLimit(rows: map<Key, nat>, limit: nat) {
    forall k :: k in rows ==> rows[k] <= limit
  }

  // ---------------------------------------------------------------- the gates

  /** An invalid link is answered 400 before any collaborator is asked, and nothing changes. */
  lemma InvalidLinkRejected(req: Request, env: Env, rows: map<Key, nat>)
    requires !IsDaadLink(SubmittedUrl(req.url))
    ensures Handle(req, env, rows) == Outcome(Reject(400, InvalidLinkMessage), [], rows)
  {
  }

  /** A missing body URL becomes "", which is not a link. */
  lemma MissingUrlRejected(authorization: Option<string>, env: Env, rows: map<Key, nat>)
    ensures Handle(Request(None, authorization), env, rows) == Outcome(Reject(400, InvalidLinkMessage), [], rows)
  {
    assert SubmittedUrl(None) == "";
  }

  /** Whitespace and line terminators around the submitted URL change nothing. */
  lemma PaddingIgnored(a: string, url: string, b: string, authorization: Option<string>, env: Env, rows: map<Key, nat>)
    requires AllTrimmable(a) && AllTrimmable(b)
    ensures Handle(Request(Some(a + url + b), authorization), env, rows) == Handle(Request(Some(url), authorization), env, rows)
  {
    TrimIgnoresPadding(a, url, b);
  }

  /** Validating the trimmed URL is validating the URL: the handler sees the same request either way. */
  lemma TrimmedUrlSameOutcome(url: string, authorization: Option<string>, env: Env, rows: map<Key, nat>)
    ensures Handle(Request(Some(Trim(url)), authorization), env, rows) == Handle(Request(Some(url), authorization), env, rows)
  {
    TrimIdempotent(url);
  }

  /** The token is what follows "Bearer ", and nothing when the prefix is missing. */
  lemma BearerTokenRoundTrip(token: string, header: string)
    ensures BearerToken(Some("Bearer " + token)) == Some(token)
    ensures !("Bearer " <= header) ==> BearerToken(Some(header)) == None
    ensures BearerToken(None) == None
  {
    assert "Bearer " <= "Bearer " + token;
    assert ("Bearer " + token)[7..] == token;
  }

  /** A valid link without a usable token (no header, no "Bearer " prefix, or nothing after it) is answered 401. */
  lemma MissingTokenRejected(req: Request, env: Env, rows: map<Key, nat>)
    requires IsDaadLink(SubmittedUrl(req.url))
    requires BearerToken(req.authorization) in {None, Some("")}
    ensures Handle(req, env, rows) == Outcome(Reject(401, NotAuthenticatedMessage), [], rows)
  {
  }

  /** A token the provider rejects, or for which it returns no user, is answered 401 after one verification. */
  lemma InvalidSessionRejected(req: Request, env: Env, rows: map<Key, nat>, token: string)
    requires IsDaadLink(SubmittedUrl(req.url))
    requires BearerToken(req.authorization) == Some(token) && token != ""
    requires env.verify(token).failed || env.verify(token).user.None?
    ensures Handle(req, env, rows) == Outcome(Reject(401, InvalidSessionMessage), [VerifyToken(token)], rows)
  {
  }

  /** A request that gets past authentication is charged to its user and today. */
  lemma ChargedKeyIsAuthenticatedUser(req: Request, env: Env, rows: map<Key, nat>)
    ensures ChargedKey(req, env).Some? <==> |Handle(req, env, rows).effects| >= 2
    ensures ChargedKey(req, env).Some? ==>
              ChargedKey(req, env).value.day == env.today &&
              Handle(req, env, rows).effects[1] == ReadUsage(ChargedKey(req, env).value)
    ensures ChargedKey(req, env).Some? ==>
              BearerToken(req.authorization).Some? &&
              var token := BearerToken(req.authorization).value;
              Handle(req, env, rows).effects[0] == VerifyToken(token) &&
              env.verify(token).user.Some? &&
              ChargedKey(req, env).value.user == env.verify(token).user.value
  {
  }

  /** A user at or over the limit (5, or 50 with premium) is answered 429; the pipeline is not called. */
  lemma QuotaReachedRejected(req: Request, env: Env, rows: map<Key, nat>, key: Key)
    requires ChargedKey(req, env) == Some(key)
    requires UsedToday(rows, key) >= DailyLimit(env.premium)
    ensures Handle(req, env, rows).response == Reject(429, QuotaMessage)
    ensures Handle(req, env, rows).rows == rows
    ensures forall e :: e in Handle(req, env, rows).effects ==> !e.RunPipeline?
  {
  }

  /** A failed pipeline call is answered 502 with the upstream body, and is not charged. */
  lemma UpstreamFailureNotCharged(req: Request, env: Env, rows: map<Key, nat>, key: Key, body: string)
    requires ChargedKey(req, env) == Some(key)
    requires UsedToday(rows, key) < DailyLimit(env.premium)
    requires env.pipeline(SubmittedUrl(req.url)) == UpstreamErr(body)
    ensures Handle(req, env, rows).response == Reject(502, "Vectorshift error: " + body)
    ensures Handle(req, env, rows).rows == rows
    ensures Writes(Handle(req, env, rows).effects) == 0
  {
    var url := SubmittedUrl(req.url);
    var checked := [VerifyToken(BearerToken(req.authorization).value)] + [ReadUsage(key)];
    assert Handle(req, env, rows) == Forward(url, checked, key, env, rows);
    WritesAppend(checked, [RunPipeline(url)]);
    WritesAppend([VerifyToken(BearerToken(req.authorization).value)], [ReadUsage(key)]);
  }

  /**
   * A successful pipeline call returns its markdown ("" when the field is
   * missing) and bumps the charged record by one, inserting it with count 1
   * when there was none; every other record stays as it was, and the new
   * count is within the limit. The one write is the last interaction: an
   * update of the existing record, or an insert with count 1.
   */
  lemma SuccessChargesOnce(req: Request, env: Env, rows: map<Key, nat>, key: Key, output: Option<string>)
    requires ChargedKey(req, env) == Some(key)
    requires UsedToday(rows, key) < DailyLimit(env.premium)
    requires env.pipeline(SubmittedUrl(req.url)) == UpstreamOk(output)
    ensures Handle(req, env, rows).response == Summary(if output.Some? then output.value else "")
    ensures key in Handle(req, env, rows).rows
    ensures Handle(req, env, rows).rows[key] == (if key in rows then rows[key] + 1 else 1)
    ensures Handle(req, env, rows).rows[key] <= DailyLimit(env.premium)
    ensures forall k :: k != key ==> UsedToday(Handle(req, env, rows).rows, k) == UsedToday(rows, k)
    ensures Handle(req, env, rows).rows.Keys == rows.Keys + {key}
    ensures Writes(Handle(req, env, rows).effects) == 1
    ensures |Handle(req, env, rows).effects| == 4
    ensures Handle(req, env, rows).effects[2] == RunPipeline(SubmittedUrl(req.url))
    ensures Handle(req, env, rows).effects[3] ==
              if key in rows then UpdateUsage(key, rows[key] + 1) else InsertUsage(key, 1)
  {
    var o := Handle(req, env, rows);
    var e := o.effects;
    assert Writes(e) == Writes(e[1..]) == Writes(e[1..][1..]) == Writes(e[1..][1..][1..]);
    assert e[1..][1..][1..][1..] == [];
  }
  /** The usage table changes exactly when the answer is a summary, and then by exactly one write. */
  lemma {:induction false} MutationIffSuccess(req: Request, env: Env, rows: map<Key, nat>)
    ensures Handle(req, env, rows).rows != rows <==> Handle(req, env, rows).response.Summary?
    ensures Writes(Handle(req, env, rows).effects) == (if Handle(req, env, rows).response.Summary? then 1 else 0)
  {
    var o := Handle(req, env, rows);
    var ck := ChargedKey(req, env);
    if ck.Some? && UsedToday(rows, ck.value) < DailyLimit(env.premium) {
      var key := ck.value;
      match env.pipeline(SubmittedUrl(req.url))
      case UpstreamErr(body) =>
        UpstreamFailureNotCharged(req, env, rows, key, body);
      case UpstreamOk(output) =>
        SuccessChargesOnce(req, env, rows, key, output);
        assert UsedToday(o.rows, key) != UsedToday(rows, key);
    } else {
      assert o.rows == rows && !o.response.Summary?;
      assert |o.effects| <= 2;
      assert Writes(o.effects) == 0 by {
        if o.effects != [] {
          assert o.effects[1..] == [] || o.effects[1..][1..] == [];
        }
      }
    }
  }

  /** Only today's record of the requesting user can change; a new day starts from no record. */
  lemma OtherDaysUntouched(req: Request, env: Env, rows: map<Key, nat>, k: Key)
    requires k.day != env.today
    ensures UsedToday(Handle(req, env, rows).rows, k) == UsedToday(rows, k)
  {
    MutationIffSuccess(req, env, rows);
    var ck := ChargedKey(req, env);
    if Handle(req, env, rows).response.Summary? {
      assert ck.Some? && UsedToday(rows, ck.value) < DailyLimit(env.premium);
      assert env.pipeline(SubmittedUrl(req.url)).UpstreamOk?;
      SuccessChargesOnce(req, env, rows, ck.value, env.pipeline(SubmittedUrl(req.url)).output);
    }
  }

  /** No request takes a count past the limit it was checked against. */
  lemma QuotaPreserved(req: Request, env: Env, rows: map<Key, nat>)
    requires WithinLimit(rows, DailyLimit(env.premium))
    ensures WithinLimit(Handle(req, env, rows).rows, DailyLimit(env.premium))
  {
    MutationIffSuccess(req, env, rows);
    var ck := ChargedKey(req, env);
    if Handle(req, env, rows).response.Summary? {
      assert ck.Some? && UsedToday(rows, ck.value) < DailyLimit(env.premium);
      SuccessChargesOnce(req, env, rows, ck.value, env.pipeline(SubmittedUrl(req.url)).output);
    }
  }

  // ------------------------------------------------------------ many requests

  /** One request as it meets the world. */
  datatype Step = Step(req: Request, env: Env)

  /** The usage table after handling `steps` in order against `rows`. */
  function Replay(steps: seq<Step>, rows: map<Key, nat>): map<Key, nat>
    decreases |steps|
  {
    if steps == [] then rows
    else Replay(steps[1..], Handle(steps[0].req, steps[0].env, rows).rows)
  }

  /** How many of `steps`, replayed against `rows`, were answered with a summary charged to `key`. */
  function Successes(steps: seq<Step>, rows: map<Key, nat>, key: Key): nat
    decreases |steps|
  {
    if steps == [] then 0
    else
      var o := Handle(steps[0].req, steps[0].env, rows);
      (if o.response.Summary? && ChargedKey(steps[0].req, steps[0].env) == Some(key) then 1 else 0)
      + Successes(steps[1..], o.rows, key)
  }

  /** One request adds one to the record it is charged to when it succeeds, and nothing otherwise. */
  lemma StepCount(req: Request, env: Env, rows: map<Key, nat>, key: Key)
    ensures UsedToday(Handle(req, env, rows).rows, key) ==
            UsedToday(rows, key) + (if Handle(req, env, rows).response.Summary? && ChargedKey(req, env) == Some(key) then 1 else 0)
  {
    MutationIffSuccess(req, env, rows);
    var ck := ChargedKey(req, env);
    if Handle(req, env, rows).response.Summary? {
      assert ck.Some? && UsedToday(rows, ck.value) < DailyLimit(env.premium);
      SuccessChargesOnce(req, env, rows, ck.value, env.pipeline(SubmittedUrl(req.url)).output);
    }
  }

  /**
   * Over any sequence of requests handled one after another, every record
   * grows by exactly the number of successful requests charged to it:
   * starting from an empty table, the count is the number of successes.
   */
  lemma {:induction false} UsageCountsSuccesses(steps: seq<Step>, rows: map<Key, nat>, key: Key)
    ensures UsedToday(Replay(steps, rows), key) == UsedToday(rows, key) + Successes(steps, rows, key)
    decreases |steps|
  {
    if steps != [] {
      var o := Handle(steps[0].req, steps[0].env, rows);
      StepCount(steps[0].req, steps[0].env, rows, key);
      UsageCountsSuccesses(steps[1..], o.rows, key);
    }
  }

  /** Requests under one limit keep every count within it. */
  lemma {:induction false} ReplayWithinLimit(steps: seq<Step>, rows: map<Key, nat>, limit: nat)
    requires WithinLimit(rows, limit)
    requires forall i :: 0 <= i < |steps| ==> DailyLimit(steps[i].env.premium) == limit
    ensures WithinLimit(Replay(steps, rows), limit)
    decreases |steps|
  {
    if steps != [] {
      QuotaPreserved(steps[0].req, steps[0].env, rows);
      ReplayWithinLimit(steps[1..], Handle(steps[0].req, steps[0].env, rows).rows, limit);
    }
  }

  /**
   * The first successful request of the day inserts the record with count 1,
   * the second updates it to 2, and a request on another day still finds no
   * record of its own.
   */
  lemma FirstSecondAndNextDay(req1: Request, req2: Request, env: Env, rows: map<Key, nat>, user: UserId, nextDay: Day)
    requires Key(user, env.today) !in rows && Key(user, nextDay) !in rows && nextDay != env.today
    requires ChargedKey(req1, env) == Some(Key(user, env.today)) && ChargedKey(req2, env) == Some(Key(user, env.today))
    requires env.pipeline(SubmittedUrl(req1.url)).UpstreamOk? && env.pipeline(SubmittedUrl(req2.url)).UpstreamOk?
    ensures var o1 := Handle(req1, env, rows);
            var o2 := Handle(req2, env, o1.rows);
            o1.response.Summary? && o2.response.Summary? &&
            o1.rows[Key(user, env.today)] == 1 && o1.effects[3] == InsertUsage(Key(user, env.today), 1) &&
            o2.rows[Key(user, env.today)] == 2 && o2.effects[3] == UpdateUsage(Key(user, env.today), 2) &&
            UsedToday(o2.rows, Key(user, nextDay)) == 0
  {
    var key := Key(user, env.today);
    var o1 := Handle(req1, env, rows);
    SuccessChargesOnce(req1, env, rows, key, env.pipeline(SubmittedUrl(req1.url)).output);
    SuccessChargesOnce(req2, env, o1.rows, key, env.pipeline(SubmittedUrl(req2.url)).output);
    OtherDaysUntouched(req1, env, rows, Key(user, nextDay));
    OtherDaysUntouched(req2, env, o1.rows, Key(user, nextDay));
  }
}
