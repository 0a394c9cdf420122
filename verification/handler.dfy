/**
 * The `POST /api/generate-itinerary` handler as a pure step over explicit
 * state (the itinerary cache and the per-IP hit map). The environment, the
 * clock, the catalog file, the provider's reply and `JSON.parse` are inputs.
 */
module Handler {
  import opened Wrappers
  import opened JsValue
  import opened RateLimit
  import opened PlanRequest
  import opened Catalog
  import opened Shape
  import opened ResponseCache
  import JsonText
  import Seqs

  const DEFAULT_MODEL: string := "gpt-4.1-mini"

  datatype Request = Request(httpMethod: string, forwardedFor: Value, remoteAddress: Option<string>, body: Value)

  /** `OPENAI_API_KEY` and `OPENAI_MODEL`; the empty string stands for unset. */
  datatype Env = Env(apiKey: string, modelName: string)

  /** The three `Date.now()` readings: limiter, cache lookup, cache store. */
  datatype Clock = Clock(atAdmit: int, atLookup: int, atStore: int)

  /** What the provider call produced: a thrown error's message, a non-2xx reply, or the decoded body. */
  datatype ProviderReply = Threw(message: Value) | NotOk(status: int, text: string) | Replied(data: Value)

  /**
   * Foreign behaviour the handler relies on: `JSON.parse`, number
   * formatting, `String(v)`, and the message of the `TypeError` raised by a
   * property read on `null` or `undefined`.
   */
  datatype Runtime = Runtime(
    parseJson: string -> Option<Value>,
    numberText: real -> string,
    toText: Value -> string,
    typeErrorMessage: Value)

  /** Everything one invocation reads besides the request and the state. */
  datatype Inputs = Inputs(env: Env, clock: Clock, catalog: Result<seq<Poi>, Value>, reply: ProviderReply, rt: Runtime)

  datatype Response =
    | Served(itinerary: Value, cached: bool)
    | Rejected(status: int, error: string, details: Value)

  /** The effectful steps, in the only order they can happen. */
  datatype Step = LimiterConsulted | CatalogRead | CacheConsulted | ProviderCalled | CacheStored

  const FULL_TRACE: seq<Step> := [LimiterConsulted, CatalogRead, CacheConsulted, ProviderCalled, CacheStored]

  datatype State<K> = State(cache: Cache<K>, hits: Hits)

  datatype Outcome<K> = Outcome(response: Response, state: State<K>, trace: seq<Step>)

  /** A request that passed validation and has candidates. */
  datatype Prepared = Prepared(plan: Plan, candidates: seq<ModelPoi>)

  function ModelName(env: Env): string {
    if env.modelName != [] then env.modelName else DEFAULT_MODEL
  }

  /** `Array.from(new Set(exclude_poi_ids))`, or nothing for a non-array. */
  function ExcludeList(exclude: Value): seq<Value> {
    if exclude.Arr? then Seqs.Dedup(exclude.items) else []
  }

  function PoisValue(cands: seq<ModelPoi>): Value {
    Arr(seq(|cands|, i requires 0 <= i < |cands| => ModelPoiValue(cands[i])))
  }

  /** The `user` message: the normalised request and the candidate POIs. */
  function UserPayload(plan: Plan, cands: seq<ModelPoi>): Value {
    Obj([
      ("request", Obj([
        ("days", Num(plan.days as real)),
        ("max_stops_per_day", Num(plan.maxStopsPerDay as real)),
        ("pace", plan.pace),
        ("interests", plan.interests),
        ("start_area", plan.startArea),
        ("exclude_poi_ids", Arr(ExcludeList(plan.excludePoiIds)))])),
      ("pois", PoisValue(cands))])
  }

  /**
   * Body parsing, request validation, the catalog read and the exclusion
   * filter; a rejection carries its response and whether the catalog was read.
   */
  function Prepare(body: Value, inp: Inputs): (r: Result<Prepared, (Response, bool)>)
    ensures r.Ok? ==>
      && ReadBody(body, inp.rt.parseJson).Some?
      && Validate(ReadBody(body, inp.rt.parseJson).value) == Ok(r.value.plan)
      && inp.catalog.Ok?
      && r.value.candidates == Candidates(inp.catalog.value, r.value.plan.excludePoiIds)
      && r.value.candidates != []
    ensures r.Err? ==> r.error.0.Rejected? && r.error.0.status in {400, 500}
    ensures r.Err? && r.error.0.status == 400 <==>
      ReadBody(body, inp.rt.parseJson).None? || Validate(ReadBody(body, inp.rt.parseJson).value).Err?
    ensures r.Err? ==> (r.error.1 <==> r.error.0.status == 500)
    ensures r.Ok? <==>
      && ReadBody(body, inp.rt.parseJson).Some?
      && Validate(ReadBody(body, inp.rt.parseJson).value).Ok?
      && inp.catalog.Ok?
      && Candidates(inp.catalog.value, Validate(ReadBody(body, inp.rt.parseJson).value).value.excludePoiIds) != []
    ensures ReadBody(body, inp.rt.parseJson).None? ==> r.Err? && r.error.0.error == "Invalid JSON body"
    ensures ReadBody(body, inp.rt.parseJson).Some? && Validate(ReadBody(body, inp.rt.parseJson).value).Err? ==>
      r.Err? && r.error.0.error == ErrorMessage(Validate(ReadBody(body, inp.rt.parseJson).value).error)
    ensures ReadBody(body, inp.rt.parseJson).Some? && Validate(ReadBody(body, inp.rt.parseJson).value).Ok? && inp.catalog.Err? ==>
      r == Err((Rejected(500, "Failed to load POIs", Obj([("message", inp.catalog.error)])), true))
    ensures (&& ReadBody(body, inp.rt.parseJson).Some?
             && Validate(ReadBody(body, inp.rt.parseJson).value).Ok?
             && inp.catalog.Ok?
             && Candidates(inp.catalog.value, Validate(ReadBody(body, inp.rt.parseJson).value).value.excludePoiIds) == []) ==>
      r == Err((Rejected(500, "No POIs available after exclusions",
                         Obj([("exclude_poi_ids", Validate(ReadBody(body, inp.rt.parseJson).value).value.excludePoiIds)])), true))
  {
    match ReadBody(body, inp.rt.parseJson)
    case None => Err((Rejected(400, "Invalid JSON body", Undefined), false))
    case Some(b) =>
      match Validate(b)
      case Err(e) => Err((Rejected(400, ErrorMessage(e), Undefined), false))
      case Ok(plan) =>
        match inp.catalog
        case Err(message) => Err((Rejected(500, "Failed to load POIs", Obj([("message", message)])), true))
        case Ok(pois) =>
          var cands := Candidates(pois, plan.excludePoiIds);
          if cands == [] then
            Err((Rejected(500, "No POIs available after exclusions", Obj([("exclude_poi_ids", plan.excludePoiIds)])), true))
          else Ok(Prepared(plan, cands))
  }

  /** `data?.output_text` when it is a non-empty string. */
  function OutputText(data: Value): Option<string> {
    var text := Get(data, "output_text");
    if text.Str? && text.s != [] then Some(text.s) else None
  }

  /**
   * From the provider's reply to a validated itinerary or a 500 response.
   * Only an itinerary that passes the shape check comes back.
   */
  function Generate(reply: ProviderReply, ids: set<string>, rt: Runtime): (r: Result<Value, Response>)
    ensures r.Ok? ==> WellShaped(r.value, ids)
    ensures r.Ok? <==>
      && reply.Replied? && OutputText(reply.data).Some?
      && rt.parseJson(OutputText(reply.data).value).Some?
      && ValidateShape(rt.parseJson(OutputText(reply.data).value).value, ids).Valid?
    ensures r.Ok? ==> Some(r.value) == rt.parseJson(OutputText(reply.data).value)
    ensures r.Err? ==> r.error.Rejected? && r.error.status == 500
  {
    match reply
    case Threw(message) => Err(Rejected(500, "Server error", Obj([("message", message)])))
    case NotOk(status, text) => Err(Rejected(500, "OpenAI error", Obj([("status", Num(status as real)), ("body", Str(text))])))
    case Replied(data) =>
      match OutputText(data)
      case None => Err(Rejected(500, "Unexpected OpenAI response shape", Obj([("data", data)])))
      case Some(text) =>
        match rt.parseJson(text)
        case None => Err(Rejected(500, "Model did not return valid JSON", Obj([("text", Str(text))])))
        case Some(itinerary) =>
          match ValidateShape(itinerary, ids)
          case Threw => Err(Rejected(500, "Server error", Obj([("message", rt.typeErrorMessage)])))
          case Invalid(e) =>
            Err(Rejected(500, "Invalid itinerary output",
              Obj([("shapeError", Str(ErrorText(e, rt.toText))), ("itinerary", itinerary)])))
          case Valid => Ok(itinerary)
  }

  /** The first `n` effectful steps. */
  function Steps(n: nat): seq<Step>
    requires n <= |FULL_TRACE|
  {
    FULL_TRACE[..n]
  }

  /**
   * The cache lookup and, on a miss, the provider call and the store; the
   * number is how many of the steps from the lookup on were taken.
   */
  function Serve<K(==)>(cache: Cache<K>, key: K, ids: set<string>, inp: Inputs): (o: (Response, Cache<K>, nat))
    ensures 1 <= o.2 <= 3
    ensures FreshValue(cache, key, inp.clock.atLookup).Some? ==>
      o == (Served(FreshValue(cache, key, inp.clock.atLookup).value, true), cache, 1)
    ensures FreshValue(cache, key, inp.clock.atLookup).None? ==>
      && (o.0.Served? <==> Generate(inp.reply, ids, inp.rt).Ok?)
      && (o.0.Served? ==> o.0 == Served(Generate(inp.reply, ids, inp.rt).value, false)
                          && o.1 == Store(cache, key, inp.clock.atStore, o.0.itinerary)
                          && o.2 == 3)
      && (o.0.Rejected? ==> o.1 == cache && o.2 == 2)
  {
    match FreshValue(cache, key, inp.clock.atLookup)
    case Some(v) => (Served(v, true), cache, 1)
    case None =>
      match Generate(inp.reply, ids, inp.rt)
      case Err(resp) => (resp, cache, 2)
      case Ok(itinerary) => (Served(itinerary, false), Store(cache, key, inp.clock.atStore, itinerary), 3)
  }

  /** The client's IP and the limiter's verdict for this request. */
  function Admission(hits: Hits, req: Request, inp: Inputs): RateLimit.Admission {
    Admit(hits, ClientIp(req.forwardedFor, req.remoteAddress), inp.clock.atAdmit)
  }

  /**
   * The handler, with the cache key computed by `keyOf(model, user)`. The
   * checks come in the source's order: method, rate limit, API key, body,
   * parameters, catalog, exclusions, cache, provider, output shape.
   */
  function HandleWith<K(==)>(keyOf: (string, Value) -> K, st: State<K>, req: Request, inp: Inputs): (o: Outcome<K>)
    ensures req.httpMethod != "POST" ==> o == Outcome(Rejected(405, "Method not allowed", Undefined), st, [])
    ensures req.httpMethod == "POST" ==> o.state.hits == Admission(st.hits, req, inp).hits && |o.trace| >= 1
    ensures o.trace <= FULL_TRACE
    ensures WellFormed(st.hits) ==> WellFormed(o.state.hits)
  {
    if req.httpMethod != "POST" then
      Outcome(Rejected(405, "Method not allowed", Undefined), st, Steps(0))
    else
      var adm := Admission(st.hits, req, inp);
      var st1 := st.(hits := adm.hits);
      if !adm.ok then Outcome(Rejected(429, "Rate limit exceeded", Undefined), st1, Steps(1))
      else if inp.env.apiKey == [] then Outcome(Rejected(500, "Missing OPENAI_API_KEY", Undefined), st1, Steps(1))
      else
        match Prepare(req.body, inp)
        case Err((resp, catalogRead)) =>
          Outcome(resp, st1, if catalogRead then Steps(2) else Steps(1))
        case Ok(prep) => ServeOutcome(keyOf, st1, prep, inp)
  }

  /** The cache lookup, provider call and store of a prepared request. */
  function ServeOutcome<K(==)>(keyOf: (string, Value) -> K, st: State<K>, prep: Prepared, inp: Inputs): (o: Outcome<K>)
    ensures o.state.hits == st.hits && 3 <= |o.trace| <= 5 && o.trace <= FULL_TRACE
  {
    var served := Serve(st.cache, KeyOf(keyOf, inp, prep), Ids(prep.candidates), inp);
    Outcome(served.0, st.(cache := served.1), Steps(2 + served.2))
  }

  /** Whether the request reaches the cache: an admitted POST with an API key and a prepared plan. */
  predicate ReachesCache(st: State, req: Request, inp: Inputs) {
    req.httpMethod == "POST" && Admission(st.hits, req, inp).ok && inp.env.apiKey != [] && Prepare(req.body, inp).Ok?
  }

  /** The cache key of a prepared request. */
  function KeyOf<K>(keyOf: (string, Value) -> K, inp: Inputs, prep: Prepared): K {
    keyOf(ModelName(inp.env), UserPayload(prep.plan, prep.candidates))
  }

  /** A request that reaches the cache gets what `Serve` gives, and the limiter's new hit map. */
  lemma ServePath<K>(keyOf: (string, Value) -> K, st: State<K>, req: Request, inp: Inputs)
    requires ReachesCache(st, req, inp)
    ensures HandleWith(keyOf, st, req, inp)
         == ServeOutcome(keyOf, State(st.cache, Admission(st.hits, req, inp).hits), Prepare(req.body, inp).value, inp)
  {
  }

  /** A request that does not reach the cache is rejected within the first two steps, with the cache untouched. */
  lemma EarlyPath<K>(keyOf: (string, Value) -> K, st: State<K>, req: Request, inp: Inputs)
    requires !ReachesCache(st, req, inp)
    ensures var o := HandleWith(keyOf, st, req, inp);
      && o.response.Rejected? && o.state.cache == st.cache && |o.trace| <= 2
      && (o.response.status == 400 ==> o.trace == Steps(1))
      && (o.response == Rejected(429, "Rate limit exceeded", Undefined) <==>
            req.httpMethod == "POST" && !Admission(st.hits, req, inp).ok)
  {
    if req.httpMethod == "POST" && Admission(st.hits, req, inp).ok && inp.env.apiKey != [] {
      var prep := Prepare(req.body, inp);
      assert prep.Err?;
      assert prep.error.0.status == 400 ==> !prep.error.1;
    }
  }

  /** A 429 comes from the limiter and only from it. */
  lemma RateLimitedIff<K>(keyOf: (string, Value) -> K, st: State<K>, req: Request, inp: Inputs)
    ensures HandleWith(keyOf, st, req, inp).response == Rejected(429, "Rate limit exceeded", Undefined) <==>
      req.httpMethod == "POST" && !Admission(st.hits, req, inp).ok
  {
    if ReachesCache(st, req, inp) {
      ServePath(keyOf, st, req, inp);
      var prep := Prepare(req.body, inp).value;
      var served := Serve(st.cache, KeyOf(keyOf, inp, prep), Ids(prep.candidates), inp);
      assert served.0.Rejected? ==> served.0.status == 500;
    } else {
      EarlyPath(keyOf, st, req, inp);
    }
  }

  /** A rejected request leaves the cache as it was. */
  lemma RejectionKeepsCache<K>(keyOf: (string, Value) -> K, st: State<K>, req: Request, inp: Inputs)
    ensures HandleWith(keyOf, st, req, inp).response.Rejected? ==> HandleWith(keyOf, st, req, inp).state.cache == st.cache
  {
    if ReachesCache(st, req, inp) {
      ServePath(keyOf, st, req, inp);
    } else {
      EarlyPath(keyOf, st, req, inp);
    }
  }

  /**
   * A malformed body or out-of-range parameter is a 400 decided after the
   * limiter and before the catalog, the cache or the provider.
   */
  lemma ValidationBeforeEffects<K>(keyOf: (string, Value) -> K, st: State<K>, req: Request, inp: Inputs)
    ensures var o := HandleWith(keyOf, st, req, inp);
      o.response.Rejected? && o.response.status == 400 ==> o.trace == [LimiterConsulted]
  {
    if ReachesCache(st, req, inp) {
      ServePath(keyOf, st, req, inp);
      var prep := Prepare(req.body, inp).value;
      var served := Serve(st.cache, KeyOf(keyOf, inp, prep), Ids(prep.candidates), inp);
      assert served.0.Rejected? ==> served.0.status == 500;
    } else {
      EarlyPath(keyOf, st, req, inp);
      assert Steps(1) == [LimiterConsulted];
    }
  }

  /** Only a freshly generated itinerary is stored. */
  lemma StoredOnlyWhenFresh<K>(keyOf: (string, Value) -> K, st: State<K>, req: Request, inp: Inputs)
    ensures var o := HandleWith(keyOf, st, req, inp);
      CacheStored in o.trace <==> o.response.Served? && !o.response.cached
  {
    var o := HandleWith(keyOf, st, req, inp);
    if ReachesCache(st, req, inp) {
      ServePath(keyOf, st, req, inp);
      var prep := Prepare(req.body, inp).value;
      var served := Serve(st.cache, KeyOf(keyOf, inp, prep), Ids(prep.candidates), inp);
      StoredStepIsLast(2 + served.2);
    } else {
      EarlyPath(keyOf, st, req, inp);
      StoredStepIsLast(|o.trace|);
      assert o.trace == Steps(|o.trace|);
    }
  }

  /** The store is the last step: it is among the first `n` only when all five were taken. */
  lemma StoredStepIsLast(n: nat)
    requires n <= |FULL_TRACE|
    ensures CacheStored in Steps(n) <==> n == 5
  {
    if n < 5 {
      forall i | 0 <= i < n ensures Steps(n)[i] != CacheStored {
        assert Steps(n)[i] == FULL_TRACE[i];
      }
    } else {
      assert Steps(n)[4] == CacheStored;
    }
  }

  /** A cache hit never reaches the provider. */
  lemma CacheHitSkipsProvider<K>(keyOf: (string, Value) -> K, st: State<K>, req: Request, inp: Inputs)
    ensures var o := HandleWith(keyOf, st, req, inp);
      o.response.Served? && o.response.cached ==>
        o.trace == [LimiterConsulted, CatalogRead, CacheConsulted] && o.state.cache == st.cache
  {
    if ReachesCache(st, req, inp) {
      ServePath(keyOf, st, req, inp);
      assert Steps(3) == [LimiterConsulted, CatalogRead, CacheConsulted];
    } else {
      EarlyPath(keyOf, st, req, inp);
    }
  }

  /** A stored itinerary passed the shape check against that request's candidates. */
  lemma FreshServeIsWellShaped<K>(keyOf: (string, Value) -> K, st: State<K>, req: Request, inp: Inputs)
    ensures var o := HandleWith(keyOf, st, req, inp);
      o.response.Served? && !o.response.cached ==>
        && Prepare(req.body, inp).Ok?
        && WellShaped(o.response.itinerary, Ids(Prepare(req.body, inp).value.candidates))
        && var prep := Prepare(req.body, inp).value;
           o.state.cache == Store(st.cache, keyOf(ModelName(inp.env), UserPayload(prep.plan, prep.candidates)),
                                  inp.clock.atStore, o.response.itinerary)
  {
    if ReachesCache(st, req, inp) {
      ServePath(keyOf, st, req, inp);
    } else {
      EarlyPath(keyOf, st, req, inp);
    }
  }

  /** Any served response comes from a request that passed validation and has candidates. */
  lemma ServedWasPrepared<K>(keyOf: (string, Value) -> K, st: State<K>, req: Request, inp: Inputs)
    ensures var o := HandleWith(keyOf, st, req, inp);
      o.response.Served? ==>
        && req.httpMethod == "POST" && Admission(st.hits, req, inp).ok && inp.env.apiKey != []
        && Prepare(req.body, inp).Ok?
  {
    if !ReachesCache(st, req, inp) {
      EarlyPath(keyOf, st, req, inp);
    }
  }

  // ---------------------------------------------------------------------
  // The handler as written: the cache key is `stableStringify({ model, user })`.
  // ---------------------------------------------------------------------

  /** `stableStringify({ model, user })`. */
  function CacheKey(rt: Runtime, model: string, user: Value): string {
    JsonText.StableStringify([("model", Str(model)), ("user", user)], rt.numberText)
  }

  /** The text every request with model `model` is cached under. */
  function ModelOnlyKey(model: string): string {
    "{\"model\":" + JsonText.Quote(model) + ",\"user\":{}}"
  }

  /**
   * The replacer array `['model', 'user']` also filters the nested `user`
   * object, whose keys are `request` and `pois`: the key is the model name
   * and nothing of the request.
   */
  lemma CacheKeyIgnoresRequest(rt: Runtime, model: string, plan: Plan, cands: seq<ModelPoi>)
    ensures CacheKey(rt, model, UserPayload(plan, cands)) == ModelOnlyKey(model)
  {
    var user := UserPayload(plan, cands);
    assert "request"[0] != "model"[0] && "pois"[0] != "model"[0];
    assert "request"[0] != "user"[0] && "pois"[0] != "user"[0];
    JsonText.ModelUserKey(model, user.fields, rt.numberText);
  }

  function Handle(st: State<string>, req: Request, inp: Inputs): (o: Outcome<string>)
    ensures o.response.Served? ==> Prepare(req.body, inp).Ok?
    ensures o.response.Served? && !o.response.cached ==>
      && WellShaped(o.response.itinerary, Ids(Prepare(req.body, inp).value.candidates))
      && o.state.cache == Store(st.cache, ModelOnlyKey(ModelName(inp.env)), inp.clock.atStore, o.response.itinerary)
  {
    var keyOf := (model, user) => CacheKey(inp.rt, model, user);
    var o := HandleWith(keyOf, st, req, inp);
    ServedWasPrepared(keyOf, st, req, inp);
    FreshServeIsWellShaped(keyOf, st, req, inp);
    if o.response.Served? then
      var prep := Prepare(req.body, inp).value;
      CacheKeyIgnoresRequest(inp.rt, ModelName(inp.env), prep.plan, prep.candidates);
      o
    else o
  }

  /** An id the request excludes is never a candidate id. */
  lemma ExcludedIsNotCandidate(catalog: seq<Poi>, exclude: Value, x: string)
    requires Excluded(exclude, x)
    ensures x !in Ids(Candidates(catalog, exclude))
  {
    CandidateIdsTraceable(catalog, exclude);
  }

  /**
   * As written, a request is answered from any fresh entry stored for the
   * same model, whatever it asked for: an itinerary that visits `x` is
   * served to a request that excludes `x`, and it fails the very shape
   * check the handler applies to fresh output.
   */
  lemma AsWrittenServesExcludedPoi(st: State<string>, req: Request, inp: Inputs, v: Value, x: string)
    requires req.httpMethod == "POST" && Admission(st.hits, req, inp).ok && inp.env.apiKey != []
    requires Prepare(req.body, inp).Ok? && Excluded(Prepare(req.body, inp).value.plan.excludePoiIds, x)
    requires FreshValue(st.cache, ModelOnlyKey(ModelName(inp.env)), inp.clock.atLookup) == Some(v)
    requires MentionsId(Days(v), Str(x))
    ensures Handle(st, req, inp).response == Served(v, true)
    ensures !WellShaped(v, Ids(Prepare(req.body, inp).value.candidates))
  {
    var prep := Prepare(req.body, inp).value;
    CacheKeyIgnoresRequest(inp.rt, ModelName(inp.env), prep.plan, prep.candidates);
    ExcludedIsNotCandidate(inp.catalog.value, prep.plan.excludePoiIds, x);
    if WellShaped(v, Ids(prep.candidates)) {
      WellShapedClosedWorld(v, Ids(prep.candidates), Str(x));
    }
  }

  /**
   * The two-request sequence: a fresh itinerary visiting `x` for one request
   * is replayed, within thirty minutes, to a later request with the same
   * model that excludes `x`.
   */
  lemma StaleItineraryAcrossRequests(st: State<string>, first: Request, inp1: Inputs, second: Request, inp2: Inputs, x: string)
    requires Handle(st, first, inp1).response.Served? && !Handle(st, first, inp1).response.cached
    requires MentionsId(Days(Handle(st, first, inp1).response.itinerary), Str(x))
    requires ModelName(inp2.env) == ModelName(inp1.env)
    requires inp2.clock.atLookup - inp1.clock.atStore < CACHE_TTL_MS
    requires second.httpMethod == "POST" && Admission(Handle(st, first, inp1).state.hits, second, inp2).ok && inp2.env.apiKey != []
    requires Prepare(second.body, inp2).Ok? && Excluded(Prepare(second.body, inp2).value.plan.excludePoiIds, x)
    ensures Handle(Handle(st, first, inp1).state, second, inp2).response == Served(Handle(st, first, inp1).response.itinerary, true)
  {
    var o1 := Handle(st, first, inp1);
    AsWrittenServesExcludedPoi(o1.state, second, inp2, o1.response.itinerary, x);
  }

  // ---------------------------------------------------------------------
  // The handler with the cache keyed by the whole request.
  // ---------------------------------------------------------------------

  /** The model and the full `user` payload, compared structurally. */
  type FullKey = (string, Value)

  /** Every cached itinerary is well shaped for the candidates listed in its own key. */
  predicate CacheSound(cache: Cache<FullKey>) {
    forall k :: k in cache ==> WellShaped(cache[k].value, IdsInValue(Get(k.1, "pois")))
  }

  /** The `pois` of the payload name exactly the candidates. */
  lemma PayloadPoiIds(plan: Plan, cands: seq<ModelPoi>)
    ensures IdsInValue(Get(UserPayload(plan, cands), "pois")) == Ids(cands)
  {
    assert "request"[0] != "pois"[0];
    LookupSecond(UserPayload(plan, cands).fields, "pois");
    IdsInPromptArray(cands);
  }

  /** The corrected cache key: the model name and the whole user payload. */
  function FullKeyOf(model: string, user: Value): FullKey {
    (model, user)
  }

  function HandleCorrected(st: State<FullKey>, req: Request, inp: Inputs): (o: Outcome<FullKey>)
    ensures CacheSound(st.cache) ==> CacheSound(o.state.cache)
    ensures CacheSound(st.cache) && o.response.Served? ==>
      && Prepare(req.body, inp).Ok?
      && WellShaped(o.response.itinerary, Ids(Prepare(req.body, inp).value.candidates))
  {
    var o := HandleWith(FullKeyOf, st, req, inp);
    if ReachesCache(st, req, inp) then
      ServePath(FullKeyOf, st, req, inp);
      if CacheSound(st.cache) then
        ServeKeepsSound(State(st.cache, Admission(st.hits, req, inp).hits), Prepare(req.body, inp).value, inp);
        o
      else o
    else
      EarlyPath(FullKeyOf, st, req, inp);
      o
  }

  /**
   * Under the full key, a sound cache stays sound through the lookup and
   * store, and whatever is served is well shaped for the request's candidates.
   */
  lemma ServeKeepsSound(st: State<FullKey>, prep: Prepared, inp: Inputs)
    requires CacheSound(st.cache)
    ensures var o := ServeOutcome(FullKeyOf, st, prep, inp);
      && CacheSound(o.state.cache)
      && (o.response.Served? ==> WellShaped(o.response.itinerary, Ids(prep.candidates)))
  {
    var key := KeyOf(FullKeyOf, inp, prep);
    var ids := Ids(prep.candidates);
    PayloadPoiIds(prep.plan, prep.candidates);
    assert IdsInValue(Get(key.1, "pois")) == ids;
    var served := Serve(st.cache, key, ids, inp);
    if FreshValue(st.cache, key, inp.clock.atLookup).None? && served.0.Served? {
      var c := served.1;
      forall k | k in c
        ensures WellShaped(c[k].value, IdsInValue(Get(k.1, "pois")))
      {
        if k != key {
          assert k in st.cache;
        }
      }
    }
  }
}
