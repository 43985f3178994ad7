/** Short-link records and the pure specification of the two registry
    operations of the DarkShort URL shortener: creating a record and
    resolving a code (first match by insertion order, click counted). */
module ShortLinks {

  datatype Option<+T> = None | Some(value: T)

  /** One short link. Times are milliseconds since the epoch. */
  datatype Record = Record(
    id: int,          // the clock reading taken when the record was built
    original: string, // the long URL
    short: string,    // <origin>/#/<code>
    code: string,     // the short identifier; uniqueness is not enforced
    expiry: int,      // creation time plus the requested minutes; never checked
    clicks: int       // number of successful resolutions
  )

  const MillisPerMinute: int := 60000
  const MaxGeneratedLength: nat := 6

  /** The digits of a base-36 numeral as JavaScript prints them. */
  predicate IsBase36Digit(c: char)
  {
    ('0' <= c <= '9') || ('a' <= c <= 'z')
  }

  /** What `Math.random().toString(36).slice(2, 8)` can produce: at most six
      base-36 digits taken after the leading "0.". */
  predicate IsGeneratedCode(g: string)
  {
    |g| <= MaxGeneratedLength && forall i :: 0 <= i < |g| ==> IsBase36Digit(g[i])
  }

  /** The custom code wins whenever it is not the empty string (JavaScript `||`). */
  function ChooseCode(custom: string, generated: string): (code: string)
    requires IsGeneratedCode(generated)
    ensures custom != [] ==> code == custom
    ensures custom == [] ==> code == generated && IsGeneratedCode(code)
  {
    if custom != [] then custom else generated
  }

  function ShortPrefix(origin: string): string
  {
    origin + "/#/"
  }

  /** The display form of a short link in the hash-routed page. */
  function ShortUrl(origin: string, code: string): string
  {
    ShortPrefix(origin) + code
  }

  /** The code a hash-routed link under `origin` carries, if it is one. */
  function CodeOfShort(origin: string, link: string): (r: Option<string>)
    ensures r.Some? ==> ShortUrl(origin, r.value) == link
  {
    var p := ShortPrefix(origin);
    if |p| <= |link| && link[..|p|] == p then Some(link[|p|..]) else None
  }

  /** The record `shortenUrl` builds. `now` is the clock reading of the
      expiry computation and `idNow` the separate reading stored as `id`. */
  function NewRecord(original: string, minutes: int, custom: string, generated: string,
                     now: int, idNow: int, origin: string): (r: Record)
    requires IsGeneratedCode(generated)
    ensures r.clicks == 0 && r.original == original && r.id == idNow
    ensures r.expiry == now + minutes * MillisPerMinute
    ensures custom != [] ==> r.code == custom
    ensures custom == [] ==> r.code == generated && |r.code| <= MaxGeneratedLength
    ensures forall i :: custom == [] && 0 <= i < |r.code| ==> IsBase36Digit(r.code[i])
    ensures CodeOfShort(origin, r.short) == Some(r.code)
  {
    var code := ChooseCode(custom, generated);
    var r := Record(idNow, original, ShortUrl(origin, code), code,
                    now + minutes * MillisPerMinute, 0);
    assert r.short[..|ShortPrefix(origin)|] == ShortPrefix(origin);
    assert r.short[|ShortPrefix(origin)|..] == code;
    r
  }

  /** Distinct codes give distinct short links under one origin. */
  lemma ShortUrlInjective(origin: string, c1: string, c2: string)
    requires ShortUrl(origin, c1) == ShortUrl(origin, c2)
    ensures c1 == c2
  {
    var n := |ShortPrefix(origin)|;
    assert c1 == ShortUrl(origin, c1)[n..];
    assert c2 == ShortUrl(origin, c2)[n..];
  }

  /** The index of the first record carrying `code`, as `Array.prototype.find`
      visits them. */
  function FirstMatch(rs: seq<Record>, code: string): (r: Option<nat>)
    ensures r.Some? ==> r.value < |rs| && rs[r.value].code == code
    ensures r.Some? ==> forall j :: 0 <= j < r.value ==> rs[j].code != code
    ensures r.None? ==> forall j :: 0 <= j < |rs| ==> rs[j].code != code
  {
    if rs == [] then None
    else if rs[0].code == code then Some(0)
    else match FirstMatch(rs[1..], code)
      case None => None
      case Some(i) => Some(i + 1)
  }

  /** `FirstMatch` is the lowest matching index and nothing else. */
  lemma FirstMatchIsLowest(rs: seq<Record>, code: string, i: nat)
    requires i < |rs| && rs[i].code == code
    requires forall j :: 0 <= j < i ==> rs[j].code != code
    ensures FirstMatch(rs, code) == Some(i)
  {
    var m := FirstMatch(rs, code);
    assert m.Some?;
    assert !(m.value < i);
    assert !(i < m.value);
  }

  /** The list with the clicks of record `i` raised by one. */
  function Clicked(rs: seq<Record>, i: nat): seq<Record>
    requires i < |rs|
  {
    rs[i := rs[i].(clicks := rs[i].clicks + 1)]
  }

  /** `handleRedirect` on the stored list: the list written back (the same
      list on a miss, when nothing is written) and the URL to navigate to. */
  function Redirect(rs: seq<Record>, code: string): (out: (seq<Record>, Option<string>))
    ensures |out.0| == |rs|
    ensures out.1.None? <==> forall j :: 0 <= j < |rs| ==> rs[j].code != code
  {
    match FirstMatch(rs, code)
    case None => (rs, None)
    case Some(i) => (Clicked(rs, i), Some(rs[i].original))
  }

  /** A code no record has: not found, and the list is left as it was. */
  lemma RedirectMiss(rs: seq<Record>, code: string)
    requires forall j :: 0 <= j < |rs| ==> rs[j].code != code
    ensures Redirect(rs, code) == (rs, None)
  {
  }

  /** A present code: the lowest-index match gives its URL and gains exactly
      one click; no other record and no other field changes. */
  lemma RedirectHit(rs: seq<Record>, code: string, i: nat)
    requires i < |rs| && rs[i].code == code
    requires forall j :: 0 <= j < i ==> rs[j].code != code
    ensures Redirect(rs, code).1 == Some(rs[i].original)
    ensures |Redirect(rs, code).0| == |rs|
    ensures Redirect(rs, code).0[i] == rs[i].(clicks := rs[i].clicks + 1)
    ensures forall j :: 0 <= j < |rs| && j != i ==> Redirect(rs, code).0[j] == rs[j]
  {
    FirstMatchIsLowest(rs, code, i);
  }

  /** Two lists of the same length whose codes agree index by index. */
  predicate SameCodes(rs: seq<Record>, ss: seq<Record>)
  {
    |rs| == |ss| && forall j :: 0 <= j < |rs| ==> rs[j].code == ss[j].code
  }

  /** Lookup depends on the codes alone. No induction is needed: the
      contract of `FirstMatch` determines its result from the codes. */
  lemma FirstMatchSameCodes(rs: seq<Record>, ss: seq<Record>, code: string)
    requires SameCodes(rs, ss)
    ensures FirstMatch(rs, code) == FirstMatch(ss, code)
  {
  }

  /** Resolving never changes a code, so it never changes which record any
      later lookup finds. */
  lemma RedirectKeepsCodes(rs: seq<Record>, code: string)
    ensures SameCodes(rs, Redirect(rs, code).0)
    ensures forall c :: FirstMatch(Redirect(rs, code).0, c) == FirstMatch(rs, c)
  {
    forall c ensures FirstMatch(Redirect(rs, code).0, c) == FirstMatch(rs, c) {
      FirstMatchSameCodes(Redirect(rs, code).0, rs, c);
    }
  }

  /** The list after `n` successive resolutions of `code`. */
  function RedirectTimes(rs: seq<Record>, code: string, n: nat): seq<Record>
  {
    if n == 0 then rs else Redirect(RedirectTimes(rs, code, n - 1), code).0
  }

  /** `n` resolutions of a present code raise the first match's clicks by
      exactly `n` and change nothing else. */
  lemma {:induction false} RepeatedRedirect(rs: seq<Record>, code: string, i: nat, n: nat)
    requires FirstMatch(rs, code) == Some(i)
    ensures |RedirectTimes(rs, code, n)| == |rs|
    ensures i < |rs| && RedirectTimes(rs, code, n)[i] == rs[i].(clicks := rs[i].clicks + n)
    ensures forall j :: 0 <= j < |rs| && j != i ==> RedirectTimes(rs, code, n)[j] == rs[j]
    ensures FirstMatch(RedirectTimes(rs, code, n), code) == Some(i)
  {
    if n > 0 {
      RepeatedRedirect(rs, code, i, n - 1);
      var prev := RedirectTimes(rs, code, n - 1);
      RedirectKeepsCodes(prev, code);
      RedirectHit(prev, code, i);
    }
  }

  /** A later record that repeats the code of an earlier one is shadowed:
      no number of resolutions touches it. */
  lemma ShadowedDuplicate(rs: seq<Record>, code: string, i: nat, k: nat, n: nat)
    requires i < k < |rs| && rs[i].code == code && rs[k].code == code
    ensures |RedirectTimes(rs, code, n)| == |rs|
    ensures RedirectTimes(rs, code, n)[k].clicks == rs[k].clicks
  {
    var m := FirstMatch(rs, code);
    assert m.Some? && m.value <= i;
    RepeatedRedirect(rs, code, m.value, n);
  }

  /** Appending a record leaves earlier matches in place; the new record is
      found only when no earlier record carries its code. */
  lemma {:induction false} FirstMatchAppend(rs: seq<Record>, r: Record, code: string)
    ensures FirstMatch(rs + [r], code) ==
      match FirstMatch(rs, code)
      case Some(i) => Some(i)
      case None => if r.code == code then Some(|rs|) else None
  {
    var m := FirstMatch(rs, code);
    var xs := rs + [r];
    if m.Some? {
      FirstMatchIsLowest(xs, code, m.value);
    } else if r.code == code {
      FirstMatchIsLowest(xs, code, |rs|);
    }
  }

  /** `later` extends `earlier`: same records in the same order, except that
      clicks may have grown. */
  predicate Grown(earlier: seq<Record>, later: seq<Record>)
  {
    |earlier| <= |later| &&
    forall j :: 0 <= j < |earlier| ==>
      later[j].(clicks := earlier[j].clicks) == earlier[j] && earlier[j].clicks <= later[j].clicks
  }

  /** Creating and resolving only ever grow the registry: no record is lost,
      reordered or edited and clicks never decrease. */
  lemma RegistryOnlyGrows(rs: seq<Record>, r: Record, code: string)
    ensures Grown(rs, rs + [r])
    ensures Grown(rs, Redirect(rs, code).0)
  {
    var m := FirstMatch(rs, code);
    if m.Some? {
      RedirectHit(rs, code, m.value);
    }
  }

  /** A freshly created record whose code is new to the registry is what
      the next resolution of that code finds and counts. */
  lemma CreatedThenResolved(rs: seq<Record>, r: Record)
    requires forall j :: 0 <= j < |rs| ==> rs[j].code != r.code
    ensures Redirect(rs + [r], r.code) == (rs + [r.(clicks := r.clicks + 1)], Some(r.original))
  {
    FirstMatchAppend(rs, r, r.code);
    assert (rs + [r])[|rs| := r.(clicks := r.clicks + 1)] == rs + [r.(clicks := r.clicks + 1)];
  }
}
