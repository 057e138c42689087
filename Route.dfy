/**
 * The POST handler of the resize endpoint (src/app/api/resize/route.ts:25-57):
 * derive a client id, ask the rate limiter, parse and validate the body, look
 * the cache key up in the store, and on a miss store the payload as it came.
 */
module Route {
  import opened Common
  import Cache
  import CacheKey

  const MinDimension: int := 1
  const MaxDimension: int := 2000
  /** `{ ex: 60 * 60 * 24 * 7 }`: seven days, in seconds. */
  const CacheTtl: nat := 60 * 60 * 24 * 7
  const UnknownClient: string := "unknown"

  /**
   * The JSON body as the schema sees it: text that is not JSON at all, or an
   * object whose three fields are each present with the right JSON type or not.
   */
  datatype Body = Unparsable | Json(imageData: Option<string>, width: Option<int>, height: Option<int>)

  datatype Request = Request(forwardedFor: Option<string>, body: Body)

  /** A body that passed the schema. */
  datatype ResizeRequest = ResizeRequest(imageData: string, width: nat, height: nat)

  datatype Response = Image(imageData: string) | Error(status: int, message: string)

  const RateLimited: Response := Error(429, "Rate limit exceeded. Please try again later.")
  const InternalError: Response := Error(500, "Failed to process image")

  /** What the rate limiter answered for one call: its verdict, or a thrown error. */
  datatype LimitResult = Allowed | Denied | Unreachable

  /** Whether the store's GET or SET throws during this request. */
  datatype StoreFaults = StoreFaults(getThrows: bool, setThrows: bool)

  const NoFaults: StoreFaults := StoreFaults(false, false)

  /** The HTTP status of a response; NextResponse.json defaults to 200. */
  function Status(r: Response): int
  {
    match r
    case Image(_) => 200
    case Error(status, _) => status
  }

  predicate InRange(n: int)
  {
    MinDimension <= n <= MaxDimension
  }

  /** The schema: a non-empty imageData string and two numbers in [1, 2000]. */
  function Validate(body: Body): (r: Option<ResizeRequest>)
    ensures r.Some? <==>
              && body.Json?
              && body.imageData.Some? && body.imageData.value != ""
              && body.width.Some? && InRange(body.width.value)
              && body.height.Some? && InRange(body.height.value)
    ensures r.Some? ==>
              r.value == ResizeRequest(body.imageData.value, body.width.value, body.height.value)
  {
    match body
    case Unparsable => None
    case Json(Some(data), Some(w), Some(h)) =>
      if data != "" && InRange(w) && InRange(h) then Some(ResizeRequest(data, w, h)) else None
    case Json(_, _, _) => None
  }

  /** The bounds are inclusive at both ends, and an empty payload is refused. */
  lemma ValidationBoundaries(data: string)
    requires data != ""
    ensures Validate(Json(Some(data), Some(1), Some(2000))).Some?
    ensures Validate(Json(Some(data), Some(2000), Some(1))).Some?
    ensures Validate(Json(Some(data), Some(0), Some(100))).None?
    ensures Validate(Json(Some(data), Some(2001), Some(100))).None?
    ensures Validate(Json(Some(data), Some(100), Some(0))).None?
    ensures Validate(Json(Some(data), Some(100), Some(2001))).None?
    ensures Validate(Json(Some(""), Some(100), Some(100))).None?
  {
  }

  /** `req.headers.get('x-forwarded-for') || 'unknown'`. */
  function ClientId(forwardedFor: Option<string>): (id: string)
    ensures id != ""
    ensures forwardedFor.Some? && forwardedFor.value != "" ==> id == forwardedFor.value
    ensures forwardedFor.None? || forwardedFor.value == "" ==> id == UnknownClient
  {
    match forwardedFor
    case Some(h) => if h != "" then h else UnknownClient
    case None => UnknownClient
  }

  /**
   * Two requests share a rate-limit budget exactly when they carry the same
   * non-empty header, or when each carries no header, an empty one, or the
   * literal "unknown".
   */
  lemma SharedBudget(h1: Option<string>, h2: Option<string>)
    ensures ClientId(h1) == ClientId(h2) <==>
            (h1 == h2 && h1.Some? && h1.value != "") ||
            (Anonymous(h1) && Anonymous(h2))
  {
  }

  predicate Anonymous(h: Option<string>)
  {
    h.None? || h.value == "" || h.value == UnknownClient
  }

  /**
   * What a store entry written by the handler looks like: its key parses back
   * to a fingerprint of the stored payload and dimensions the schema accepts,
   * and the payload is not empty.
   */
  predicate WellFormed(key: string, e: Cache.Entry)
  {
    && e.value != ""
    && match CacheKey.ParseKey(key)
       case None => false
       case Some(parts) =>
         parts.fingerprint == CacheKey.Fingerprint(e.value) && InRange(parts.width) && InRange(parts.height)
  }

  class Gateway {
    /** The cache entries of the Redis instance. */
    var store: Cache.Store
    /** The client ids submitted to the rate limiter, one per request, in order. */
    ghost var limiterLog: seq<string>

    ghost predicate Valid()
      reads this
    {
      forall k :: k in store ==> WellFormed(k, store[k])
    }

    constructor ()
      ensures store == map[] && limiterLog == []
      ensures Valid()
    {
      store := map[];
      limiterLog := [];
    }

    /**
     * POST /api/resize. `limiter` is the rate limiter's answer for a client id,
     * `now` the store's clock and `faults` says which store calls throw.
     */
    method Handle(req: Request, now: int, limiter: string -> LimitResult, faults: StoreFaults)
      returns (resp: Response)
      modifies this
      // every request, valid or not, is charged to its client first
      ensures limiterLog == old(limiterLog) + [ClientId(req.forwardedFor)]
      // a denial answers 429 and touches nothing else
      ensures limiter(ClientId(req.forwardedFor)) == Denied ==> resp == RateLimited && store == old(store)
      // a limiter that throws, a body that fails to parse or validate: the generic 500
      ensures limiter(ClientId(req.forwardedFor)) == Unreachable ==> resp == InternalError && store == old(store)
      ensures limiter(ClientId(req.forwardedFor)) == Allowed && Validate(req.body).None? ==>
                resp == InternalError && store == old(store)
      ensures limiter(ClientId(req.forwardedFor)) == Allowed && Validate(req.body).Some? ==>
                var r := Validate(req.body).value;
                var key := CacheKey.Key(r.imageData, r.width, r.height);
                var cached := Cache.Get(old(store), key, now);
                var hit := cached.Some? && cached.value != "";
                && (faults.getThrows ==> resp == InternalError && store == old(store))
                && (!faults.getThrows && hit ==> resp == Image(cached.value) && store == old(store))
                && (!faults.getThrows && !hit && faults.setThrows ==> resp == InternalError && store == old(store))
                && (!faults.getThrows && !hit && !faults.setThrows ==>
                      resp == Image(r.imageData) &&
                      store == old(store)[key := Cache.Entry(r.imageData, now + CacheTtl)])
      // 429 exactly on a denial; success only for an admitted, valid request
      ensures Status(resp) == 429 <==> limiter(ClientId(req.forwardedFor)) == Denied
      ensures resp.Image? ==> limiter(ClientId(req.forwardedFor)) == Allowed && Validate(req.body).Some?
      // the image served is the payload itself, or a stored payload with the same head and dimensions
      ensures resp.Image? && old(Valid()) ==>
                CacheKey.Head(resp.imageData) == CacheKey.Head(Validate(req.body).value.imageData)
      ensures old(Valid()) ==> Valid()
    {
      var ip := ClientId(req.forwardedFor);
      limiterLog := limiterLog + [ip];
      var verdict := limiter(ip);
      if verdict == Unreachable {
        return InternalError;
      }
      if verdict == Denied {
        return RateLimited;
      }
      var parsed := Validate(req.body);
      if parsed.None? {
        return InternalError;
      }
      var r := parsed.value;
      var key := CacheKey.Key(r.imageData, r.width, r.height);
      if faults.getThrows {
        return InternalError;
      }
      var cached := Cache.Get(store, key, now);
      if cached.Some? && cached.value != "" {
        if Valid() {
          assert WellFormed(key, store[key]);
          CacheKey.SameFingerprintIffSameHead(cached.value, r.imageData);
        }
        return Image(cached.value);
      }
      if faults.setThrows {
        return InternalError;
      }
      store := Cache.Set(store, key, r.imageData, now, CacheTtl);
      assert WellFormed(key, store[key]);
      return Image(r.imageData);
    }
  }

  /** Every PNG data URL begins with these 24 characters (the PNG signature starts with 0x89 'P'). */
  const PngDataUrlHead: string := "data:image/png;base64,iV"

  /**
   * Two different PNG uploads at the same dimensions, the second within seven
   * days of the first: the second is answered with the first one's image.
   */
  method PngUploadsShareEntry(first: string, second: string, width: nat, height: nat, now: int, later: int)
    returns (r1: Response, r2: Response)
    requires |first| >= 24 && first[..24] == PngDataUrlHead
    requires |second| >= 24 && second[..24] == PngDataUrlHead
    requires InRange(width) && InRange(height)
    requires now <= later < now + CacheTtl
    ensures r1 == Image(first)
    ensures r2 == Image(first)
  {
    var g := new Gateway();
    var admit := (id: string) => Allowed;
    r1 := g.Handle(Request(Some("203.0.113.7"), Json(Some(first), Some(width), Some(height))), now, admit, NoFaults);
    CacheKey.SharedHeadTextSameKey(first, second, width, height);
    r2 := g.Handle(Request(None, Json(Some(second), Some(width), Some(height))), later, admit, NoFaults);
  }

  /**
   * The general case, over any store. Take any 24 characters, such as
   * PngDataUrlHead. While a live entry sits under the key of those characters at
   * some size, every admitted upload that begins with them at that size is
   * answered with that entry's image, whichever client sends it, and nothing is
   * written.
   */
  method UploadServedFromStore(g: Gateway, head: string, upload: string, width: nat, height: nat,
                               forwardedFor: Option<string>, now: int, stored: string)
    returns (r: Response)
    requires |head| == 24 && |upload| >= 24 && upload[..24] == head
    requires InRange(width) && InRange(height)
    requires Cache.Get(g.store, CacheKey.Key(head, width, height), now) == Some(stored)
    requires stored != ""
    modifies g
    ensures r == Image(stored)
    ensures g.store == old(g.store)
  {
    assert head[..24] == head;
    CacheKey.SharedHeadTextSameKey(upload, head, width, height);
    r := g.Handle(Request(forwardedFor, Json(Some(upload), Some(width), Some(height))), now, (id: string) => Allowed, NoFaults);
  }
}
