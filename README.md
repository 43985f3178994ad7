# DarkShort short-link registry in Dafny

DarkShort is a single-page URL shortener that keeps all its links in the browser's
local storage, under the key `'dark_urls'`. This project models the registry at its
core. The registry is an ordered list of records `{id, original, short, code, expiry, clicks}`
with three operations:

- **create** (`shortenUrl`): pick the code and build a record with zero clicks. The code is
  the custom code if one was given, otherwise a random base-36 draw. The record is appended
  to the list and returned.
- **resolve** (`handleRedirect`): find the first record whose code equals the argument. On a
  miss, return nothing and write nothing. On a hit, count one click on that record in place,
  write the list back and return the long URL.
- **list** (the Stats view): return the stored records, in order.

`shortlinks.dfy` (module `ShortLinks`) holds the record type and the pure specification:
- `NewRecord` is the record that create builds.
- `FirstMatch` is the find-first lookup.
- `Redirect` is resolve as a function from the old list to the new list and the destination.
- Lemmas cover first-match semantics, repeated resolution, shadowed duplicate codes and growth
  of the registry.

`registry.dfy` (module `DarkShort`) holds the class `Registry`. Its `records` field is the
decoded stored list. Each method is tied to the pure specification:
- `ShortenUrl` and `Submit` append.
- `HandleRedirect` runs a search loop (`FindFirst`), then updates the record in place.
- `Stats` reads the list.

The environment's inputs are method parameters, so every contract is deterministic:
- the two clock readings `Date.now()`, as `now` (used for the expiry) and `idNow` (stored as
  `id`);
- the random draw, as `generated`, constrained to at most six base-36 digits;
- the page origin, as `origin`;
- the verdict of `new URL(url)`, as `urlParses`.

Two details of the code that the model keeps:
- The generated code has *at most* six characters. When `Math.random()` returns 0, the slice is
  empty.
- The id and the expiry come from two separate clock readings.

## Model

| member | source | states |
|---|---|---|
| ShortLinks.ChooseCode | url-shortener/src/App.jsx:16 | a non-empty custom code is used verbatim; an empty one yields the generated code, at most six base-36 digits |
| ShortLinks.NewRecord | url-shortener/src/App.jsx:15-25 | the created record has zero clicks, the given URL, id equal to the clock reading, expiry equal to now plus minutes times 60000, the chosen code, and a short link (built by `ShortUrl` as origin + "/#/" + code) from which that code is recovered |
| ShortLinks.CodeOfShort | url-shortener/src/App.jsx:21 | any code read back from a link rebuilds exactly that link under the origin |
| ShortLinks.ShortUrlInjective | url-shortener/src/App.jsx:21 | under one origin, equal short links have equal codes |
| ShortLinks.FirstMatch | url-shortener/src/App.jsx:32 | the lookup returns an index whose record has the code and before which no record has it, or nothing exactly when no record has the code |
| ShortLinks.FirstMatchIsLowest | url-shortener/src/App.jsx:32 | the lowest matching index is the one the lookup returns |
| ShortLinks.Redirect | url-shortener/src/App.jsx:30-38 | resolution (the click counted in place by `Clicked`) keeps the list length and reports not-found exactly when no record has the code |
| ShortLinks.RedirectMiss | url-shortener/src/App.jsx:32-33 | a code no record has gives not-found and leaves the list identical |
| ShortLinks.RedirectHit | url-shortener/src/App.jsx:32-37 | a present code returns the URL of the lowest-index match; that record gains exactly one click; every other record and field is unchanged |
| ShortLinks.FirstMatchSameCodes | url-shortener/src/App.jsx:32 | lists whose codes agree index by index give the same lookup result |
| ShortLinks.RedirectKeepsCodes | url-shortener/src/App.jsx:35 | resolution changes no code, so no later lookup of any code finds a different record |
| ShortLinks.RepeatedRedirect | url-shortener/src/App.jsx:32-36 | n resolutions of a present code raise the first match's clicks by exactly n; they change nothing else and keep the first match in place |
| ShortLinks.ShadowedDuplicate | url-shortener/src/App.jsx:32 | a later record repeating an earlier record's code never gains a click, however often the code is resolved |
| ShortLinks.FirstMatchAppend | url-shortener/src/App.jsx:26-32 | appending a record keeps every existing match; the new record is found only for a code no earlier record has |
| ShortLinks.RegistryOnlyGrows | url-shortener/src/App.jsx:26-35 | create and resolve never remove, reorder or edit a record, and never lower its clicks |
| ShortLinks.CreatedThenResolved | url-shortener/src/App.jsx:15-37 | resolving the code of a just-created record whose code is new returns its URL, and the only change is one click on that record |
| DarkShort.FindFirst | url-shortener/src/App.jsx:32 | the search loop returns exactly the FirstMatch index |
| DarkShort.Registry.constructor | url-shortener/src/App.jsx:6-9 | an absent storage entry loads as the empty list; a present one loads as stored |
| DarkShort.Registry.ShortenUrl | url-shortener/src/App.jsx:15-28 | the returned record is NewRecord of the inputs; the list becomes the old list with exactly that record appended |
| DarkShort.Registry.HandleRedirect | url-shortener/src/App.jsx:30-38 | the new list and the result are Redirect of the old list; not-found happens exactly when no record has the code, and then the list is unchanged |
| DarkShort.Registry.Stats | url-shortener/src/App.jsx:100-105 | the listing is the stored list verbatim and changes nothing |
| DarkShort.Registry.Submit | url-shortener/src/App.jsx:67-77 | a URL that fails to parse gives InvalidUrl and changes nothing; otherwise the form creates and appends a record as ShortenUrl does |
| DarkShort.CustomCodeScenario | url-shortener/src/App.jsx:15-38 | after creating a link with custom code "abc123" and resolving it twice, both resolutions return the URL, a missing code gives not-found, and the single listed record has two clicks |

## Left out

- React rendering, `useState`/`useEffect` scheduling, routing and navigation
  (`Navigate`, `window.location.href`): UI plumbing around the registry.
- The React state copy of the list. `shortenUrl` appends to the component state (App.jsx:26),
  and an effect then writes that state to storage (App.jsx:11-13). `handleRedirect` works on
  storage directly (App.jsx:31-36). The model keeps one list and assumes the two copies agree.
  It therefore does not capture the following, which is not executed but follows from the source:
  - The app's own short links open in a new tab (`target="_blank"`, App.jsx:92 and App.jsx:113),
    so a resolution normally runs on a fresh page load.
  - On that load, App reads the list at App.jsx:7, before the Redirect view renders and counts
    the click (App.jsx:35-36).
  - App's mount effect (App.jsx:11-13) then writes back the list read at App.jsx:7, which does not
    hold the click. The click count shown by the Stats view therefore does not grow through these
    links.
- `localStorage` and `JSON.stringify`/`JSON.parse`: browser and library I/O. The stored blob is
  the `records` field; an absent entry reads as the empty list. The model leaves these out:
  - a corrupt blob (a parse failure);
  - the string form that `expiry` takes after a round trip through JSON.
- `Math.random()` and `Number.prototype.toString(36)`: floating point and library code. The
  drawn code is the parameter `generated`, constrained to at most six base-36 digits.
- `Date.now()` and `new Date(...)`: clock readings are integer parameters, and `expiry` is an
  integer number of milliseconds rather than a `Date`.
- `new URL(url)`: an external URL parser. Only its verdict enters the model, as `urlParses`.
- The coercion of the minutes field from the number input to a number: `minutes` is an integer.
- IEEE double arithmetic of `clicks += 1` and `minutes * 60000`: integers here are unbounded, so
  precision loss above 2^53 is not modelled.
- `id` uniqueness: the source does not enforce it, and the model does not assume it.
