/** The stateful side of DarkShort: the list stored under the key
    'dark_urls', and the handlers of the three views that act on it. */
module DarkShort {
  import opened ShortLinks

  /** Outcome of submitting the create form. */
  datatype SubmitResult = Created(record: Record) | InvalidUrl

  /** The lookup `data.find(u => u.code === code)` performs, as an index. */
  method FindFirst(data: seq<Record>, code: string) returns (k: Option<nat>)
    ensures k == FirstMatch(data, code)
    ensures k.Some? ==> k.value < |data| && data[k.value].code == code
  {
    var i := 0;
    while i < |data|
      invariant 0 <= i <= |data|
      invariant forall j :: 0 <= j < i ==> data[j].code != code
    {
      if data[i].code == code {
        FirstMatchIsLowest(data, code, i);
        return Some(i);
      }
      i := i + 1;
    }
    return None;
  }

  class Registry {
    /** The decoded contents of the 'dark_urls' storage entry. */
    var records: seq<Record>

    /** Loads the stored list; an absent entry reads as the empty list. */
    constructor (blob: Option<seq<Record>>)
      ensures records == (if blob.Some? then blob.value else [])
    {
      records := if blob.Some? then blob.value else [];
    }

    /** `shortenUrl`: build the record, append it, return it. */
    method ShortenUrl(original: string, minutes: int, custom: string, generated: string,
                      now: int, idNow: int, origin: string) returns (entry: Record)
      requires IsGeneratedCode(generated)
      modifies this
      ensures entry == NewRecord(original, minutes, custom, generated, now, idNow, origin)
      ensures records == old(records) + [entry]
      ensures Grown(old(records), records)
    {
      entry := NewRecord(original, minutes, custom, generated, now, idNow, origin);
      records := records + [entry];
    }

    /** `handleRedirect`: find the first record with `code`; on a miss write
        nothing and return None, on a hit count one click in place, write
        the list back and return the record's URL. */
    method HandleRedirect(code: string) returns (dest: Option<string>)
      modifies this
      ensures (records, dest) == Redirect(old(records), code)
      ensures dest.None? <==> forall j :: 0 <= j < |old(records)| ==> old(records)[j].code != code
      ensures dest.None? ==> records == old(records)
      ensures Grown(old(records), records)
    {
      var data := records;
      var k := FindFirst(data, code);
      if k.None? {
        return None;
      }
      var i := k.value;
      RedirectHit(data, code, i);
      data := data[i := data[i].(clicks := data[i].clicks + 1)];
      records := data;
      dest := Some(data[i].original);
    }

    /** The list the Stats view shows: the stored records, in order. */
    method Stats() returns (list: seq<Record>)
      ensures list == records
    {
      list := records;
    }

    /** The create form's submit handler. `urlParses` is the verdict of
        `new URL(url)`; a URL it rejects creates nothing. */
    method Submit(url: string, urlParses: bool, time: int, custom: string, generated: string,
                  now: int, idNow: int, origin: string) returns (res: SubmitResult)
      requires IsGeneratedCode(generated)
      modifies this
      ensures !urlParses ==> res == InvalidUrl && records == old(records)
      ensures urlParses ==>
        res == Created(NewRecord(url, time, custom, generated, now, idNow, origin)) &&
        records == old(records) + [res.record]
    {
      if !urlParses {
        return InvalidUrl;
      }
      var r := ShortenUrl(url, time, custom, generated, now, idNow, origin);
      res := Created(r);
    }
  }

  /** Create "https://example.com" under the custom code "abc123", resolve it
      twice and a missing code once, then list the registry. */
  method CustomCodeScenario(now: int, idNow: int, origin: string)
    returns (first: Option<string>, second: Option<string>, missing: Option<string>, list: seq<Record>)
    ensures first == Some("https://example.com") && second == first && missing == None
    ensures |list| == 1 && list[0].code == "abc123" && list[0].clicks == 2
  {
    var reg := new Registry(None);
    var r := reg.ShortenUrl("https://example.com", 30, "abc123", "", now, idNow, origin);
    CreatedThenResolved([], r);
    first := reg.HandleRedirect("abc123");
    RedirectHit(reg.records, "abc123", 0);
    second := reg.HandleRedirect("abc123");
    missing := reg.HandleRedirect("doesnotexist");
    list := reg.Stats();
  }
}
