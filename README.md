# Resize endpoint: a Dafny model

This project models the server side of an image-resizer web application: the
`POST /api/resize` handler in `src/app/api/resize/route.ts`. The handler works in
this order:

1. It takes a client id from the `x-forwarded-for` header. If the header is missing
   or empty, it uses `"unknown"`.
2. It asks a fixed-window rate limiter whether that client may proceed. A denial
   answers 429.
3. It parses the JSON body and checks it against a schema: `imageData` must be a
   non-empty string, and `width` and `height` must be numbers in [1, 2000].
4. It builds a cache key and looks it up in Redis. A stored value is returned as it is.
5. On a miss, it stores the request's own `imageData` under the key for seven days and
   echoes it back. Any exception becomes a 500.

The server does no resizing at all: the browser resizes on a canvas and posts the
result. The model keeps this.

## Structure

- `Common.dfy`: `Option`, the `byte` type, `Min`.
- `Utf8.dfy`: the UTF-8 encoding that `Buffer.from(imageData)` performs.
- `Base64.dfy`: Base64 with the standard alphabet and padding (section 4 of
  RFC 4648). It also has an independent decoder and the round trip.
- `Decimal.dfy`: decimal rendering of the dimensions inside the template literal,
  and its inverse.
- `CacheKey.dfy`: the key
  `"img:" + Base64(UTF-8(imageData)).slice(0, 32) + ":" + width + "x" + height`.
  It also has a parser for keys and the lemmas on what the key depends on.
- `Cache.dfy`: the Redis store, as a map from key to value and expiry time. It has
  GET, and SET with EX.
- `Route.dfy`: the schema, the client id, and the class `Gateway`. The class holds
  the store, and its method `Handle` is the handler.

The rate limiter, the clock and failures of the store are inputs to `Handle`:

- `limiter` is the limiter's answer for a client id: `Allowed`, `Denied`, or
  `Unreachable`, which means the call threw.
- `now` is the store's clock, in seconds.
- `faults` says whether GET or SET throws.

A ghost log records every client id submitted to the limiter.

### Behaviour to note

- **Only a prefix of the payload enters the key.** The key keeps the first 32
  Base64 characters, which encode the first 24 payload bytes.
  `CacheKey.SameKeyIffSameHead` proves what this means: two requests share a key
  exactly when their payloads agree on the first 24 UTF-8 bytes and their dimensions
  agree. Every PNG data URL begins with the same 24 characters,
  `data:image/png;base64,iV`. So all PNG uploads at one size share one cache entry,
  and `Route.PngUploadsShareEntry` proves that, from an empty store, the second
  upload is answered with the first upload's image. The Redis database is
  persistent and shared by every server instance, so the store is usually not
  empty. `Route.UploadServedFromStore` proves the general case over any store: once
  a live entry sits under the PNG key for a size, every PNG upload at that size is
  answered with that entry's image, including the first upload of a new client.
- **A miss stores and returns the input without resizing it.**
- **The rate limiter is charged before the body is parsed.** So an invalid request
  still uses a slot.
- **A schema failure gets the generic 500.** `resizeSchema.parse` throws, and the
  catch block answers 500.
- **A GET or SET that throws gets a 500.** The catch block answers it like any other
  exception.

## Model

| member | source | states |
|---|---|---|
| `Utf8.EncodeChar` | src/app/api/resize/route.ts:41 | A character encodes to 1 to 4 bytes. It encodes to exactly one byte, its own code, iff it is ASCII |
| `Utf8.Encode` | src/app/api/resize/route.ts:41 | A string of n characters encodes to between n and 4n bytes |
| `Utf8.KnownEncodings` | src/app/api/resize/route.ts:41 | 'A', U+00E9, U+20AC and U+1F600 encode to 41; C3 A9; E2 82 AC; and F0 9F 98 80 |
| `Utf8.EncodeAppend` | src/app/api/resize/route.ts:41 | The encoding of s + t is the encoding of s followed by the encoding of t |
| `Utf8.EncodeAscii` | src/app/api/resize/route.ts:41 | An ASCII string, such as a data URL, encodes to one byte per character, equal to that character's code |
| `Utf8.SharedTextHeadSharedBytes` | src/app/api/resize/route.ts:41 | Strings that agree on their first k characters agree on their first k bytes |
| `Base64.Sextet` | src/app/api/resize/route.ts:41 | Each 6-bit value maps to an alphabet character, and `Value` maps that character back |
| `Base64.Encode` | src/app/api/resize/route.ts:41 | The encoding of n bytes has 4·⌈n/3⌉ characters, each from the alphabet or '=' |
| `Base64.DecodeEncode` | src/app/api/resize/route.ts:41 | Decoding the encoding gives back the original bytes |
| `Base64.EncodesM` | src/app/api/resize/route.ts:41 | Encode([77]) is "TQ==" (RFC 4648, section 10) |
| `Base64.EncodesMa` | src/app/api/resize/route.ts:41 | Encode([77, 97]) is "TWE=" |
| `Base64.EncodesMan` | src/app/api/resize/route.ts:41 | Encode([77, 97, 110]) is "TWFu" |
| `Base64.EncodesFoobar` | src/app/api/resize/route.ts:41 | Encode("foobar") is "Zm9vYmFy" (RFC 4648, section 10) |
| `Base64.EncodesPngSignature` | src/app/api/resize/route.ts:41 | The 8-byte PNG signature encodes to "iVBORw0KGgo=" |
| `Base64.EncodeInjective` | src/app/api/resize/route.ts:41 | Two byte sequences have equal encodings iff they are equal |
| `Base64.EncodeAppend` | src/app/api/resize/route.ts:41 | When the first part's length is a multiple of 3, encoding a concatenation is concatenating the encodings |
| `Base64.EncodePrefix` | src/app/api/resize/route.ts:41 | The first 4k characters of an encoding are the encoding of the first 3k bytes |
| `Decimal.FromNat` | src/app/api/resize/route.ts:41 | A dimension renders as a non-empty run of digits, with no leading zero unless the number is 0 |
| `Decimal.ToNatFromNat` | src/app/api/resize/route.ts:41 | Reading a rendered number gives the number back, so the rendering is injective |
| `CacheKey.Fingerprint` | src/app/api/resize/route.ts:41 | The key's middle segment has at most 32 characters, all Base64 characters or '=' (never ':') |
| `CacheKey.FingerprintIsEncodedHead` | src/app/api/resize/route.ts:41 | The middle segment has min(32, 4·⌈n/3⌉) characters. It equals Base64 of the first min(24, n) payload bytes |
| `CacheKey.Key` | src/app/api/resize/route.ts:41 | `ParseKey` recovers the fingerprint, width and height from every key, by splitting at the first ':' after "img:" and then at the first 'x' |
| `CacheKey.ParseAssembled` | src/app/api/resize/route.ts:41 | A key assembled from a ':'-free segment and two numerals parses back to those parts |
| `CacheKey.KeyInjective` | src/app/api/resize/route.ts:41 | Two keys are equal iff their fingerprints, widths and heights are equal |
| `CacheKey.SameFingerprintIffSameHead` | src/app/api/resize/route.ts:41 | Two payloads have equal fingerprints iff their first min(24, n) UTF-8 bytes are equal |
| `CacheKey.SameKeyIffSameHead` | src/app/api/resize/route.ts:41 | Two requests get the same key iff their payloads share their first 24 UTF-8 bytes (all bytes, if shorter) and their dimensions are equal |
| `CacheKey.SharedHeadBytesSameKey` | src/app/api/resize/route.ts:41 | Payloads of at least 24 bytes that agree on their first 24 bytes get the same key, whatever follows |
| `CacheKey.SharedHeadTextSameKey` | src/app/api/resize/route.ts:41 | The same holds for payloads that agree on their first 24 characters |
| `Cache.Get` | src/app/api/resize/route.ts:42 | GET returns a value iff the key is present and not yet expired. The value is the stored one |
| `Cache.Set` | src/app/api/resize/route.ts:50 | After SET with EX ttl, the key reads as the value until ttl seconds pass, then as absent. Every other key reads as before |
| `Route.Validate` | src/app/api/resize/route.ts:19-23 | A body is accepted iff it is JSON with a non-empty `imageData` and `width` and `height` in [1, 2000]. The accepted request carries exactly those fields |
| `Route.ValidationBoundaries` | src/app/api/resize/route.ts:19-23 | 1 and 2000 are accepted. 0, 2001 and an empty payload are refused |
| `Route.ClientId` | src/app/api/resize/route.ts:28 | The client id is the header value when it is non-empty, otherwise "unknown". It is never empty |
| `Route.SharedBudget` | src/app/api/resize/route.ts:28 | Two requests share a rate-limit id iff they carry the same non-empty header, or both are anonymous (header absent, empty or "unknown") |
| `Route.Gateway.constructor` | src/app/api/resize/route.ts:7-10 | The store starts empty, and the store invariant holds. An empty start stands for a fresh database; `Handle` assumes nothing about the store it is given |
| `Route.Gateway.Handle` | src/app/api/resize/route.ts:25-57 | See the list below this table |
| `Route.PngUploadsShareEntry` | src/app/api/resize/route.ts:41-52 | Starting from an empty store: two PNG data URLs at the same size, the second within seven days, both get the first upload's image |
| `Route.UploadServedFromStore` | src/app/api/resize/route.ts:41-46 | Over any store: while a live entry sits under the key of a 24-character head at some size, every admitted upload that begins with that head at that size gets the stored image, from any client, and the store is unchanged |

`Route.Gateway.Handle` states the following:

- Every request appends its client id to the limiter log. This holds for invalid
  requests too.
- A denial answers 429 with the fixed message, and the store is unchanged.
- These cases answer 500 with the store unchanged: the limiter throws, the body fails
  to parse, or the body fails validation.
- GET throws: 500.
- A live, non-empty stored value is a hit. A hit returns that value and writes nothing.
- Otherwise, if SET throws: 500.
- Otherwise the store becomes exactly
  `old(store)[key := Entry(imageData, now + 604800)]`, and the response is the input.
- The status is 429 iff the limiter denied.
- A success requires an admitted, valid request.
- The class invariant is preserved.
- When the invariant holds, the image served has the same first 24 UTF-8 bytes as
  the request's payload.

## Left out

- Resizing: the handler does none, so there is nothing to model. The canvas resize
  in `src/app/page.tsx` and `src/components/resize.tsx` is browser UI, as are the
  floating-point aspect-ratio lock and the zoom clamp.
- The rate limiter's own algorithm (`Ratelimit.fixedWindow(10, '1m')`): the limiter
  belongs to an external library and service. It is an oracle that answers per
  client id.
- Redis over the network: it is an in-process map. Three things are not modelled:
  - the client library's JSON (de)serialisation of values, which is assumed to give
    back the stored string;
  - sub-second expiry timing;
  - the rate limiter's own keys in the same instance.
- The state of the shared, persistent Redis database when a server instance starts:
  `Route.Gateway.constructor` starts from an empty store, which stands for a fresh
  database. `Handle` and `Route.UploadServedFromStore` assume nothing about the store.
- `Route.Gateway.Handle`: a SET that throws is modelled as writing nothing. Over a network, the
  write may still have happened.
- JSON parsing and zod: the body is given already parsed. A missing field and a field
  of the wrong JSON type are both `None`.
- The client's `maintainQuality` and `smoothEdges` options (src/app/page.tsx:116-120):
  the schema strips unknown fields, so they have no effect on the server and `Body`
  has no place for them.
- Non-integer dimensions: `z.number()` accepts fractions such as 1.5, which would
  appear in the key as JavaScript renders them. The model's dimensions are integers.
- Unpaired UTF-16 surrogates in `imageData`: a Dafny string cannot hold them, and
  Node would encode each as U+FFFD.
- `Route.Validate`: `nonempty()` counts UTF-16 code units. The model counts
  characters. These agree on emptiness, and that is the only thing the schema tests.
- Concurrency between requests, environment configuration, logging, and the
  construction of `NextResponse` beyond its status and body.
