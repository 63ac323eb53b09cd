/**
 * `LoadAsync`: the resolved catalog items are fetched and decoded one after the
 * other, collected into a map keyed by resource path, and after each insertion
 * the accumulated progress is handed to the optional callback.
 */
module Loader {
  import opened Wrappers
  import opened Frames
  import ApiClient

  /** The kinds of `JsonElement` the loader tells apart. */
  datatype JsonValue = JString(text: string) | JOther

  datatype Resource = Resource(id: string, properties: Option<map<string, JsonValue>>)

  /** A resolved catalog item; `samplePeriod` is its representation's sample
      period in ticks. */
  datatype CatalogItem = CatalogItem(resource: Resource, samplePeriod: nat)

  datatype DataResponse = DataResponse(
    item: CatalogItem,
    name: string,
    unit: Option<string>,
    description: Option<string>,
    samplePeriod: nat,
    values: seq<Sample>)

  datatype LoadError = FetchFailed(error: ApiClient.ApiError) | FrameFailed(frame: FrameError)

  /** A property of the resource, when present and string-valued. */
  function StringProperty(r: Resource, key: string): (v: Option<string>)
    ensures v.Some? <==> r.properties.Some? && key in r.properties.value && r.properties.value[key].JString?
    ensures v.Some? ==> r.properties.value[key] == JString(v.value)
  {
    if r.properties.Some? && key in r.properties.value && r.properties.value[key].JString? then
      Some(r.properties.value[key].text)
    else None
  }

  /** One loop iteration: fetch the path's data (`fetch` stands for the data
      endpoint), decode it, and build the response record. */
  function ItemResult(path: string, item: CatalogItem, fetch: string -> Result<Body, ApiClient.ApiError>): Result<DataResponse, LoadError> {
    match fetch(path)
    case Err(e) => Err(FetchFailed(e))
    case Ok(body) =>
      match Decode(body)
      case Err(e) => Err(FrameFailed(e))
      case Ok(samples) =>
        Ok(DataResponse(item, item.resource.id, StringProperty(item.resource, "unit"),
                        StringProperty(item.resource, "description"), item.samplePeriod, samples))
  }

  /** The whole call: the first failing item's error, or the map of all items. */
  function LoadSpec(entries: seq<(string, CatalogItem)>, fetch: string -> Result<Body, ApiClient.ApiError>): (r: Result<map<string, DataResponse>, LoadError>)
    ensures r.Ok? ==> forall i :: 0 <= i < |entries| ==> entries[i].0 in r.value
    decreases |entries|
  {
    if entries == [] then Ok(map[])
    else
      var prior := LoadSpec(entries[..|entries| - 1], fetch);
      if prior.Err? then prior
      else
        var (path, item) := entries[|entries| - 1];
        match ItemResult(path, item, fetch)
        case Err(e) => Err(e)
        case Ok(d) => Ok(prior.value[path := d])
  }

  /** How many items are inserted before the call stops. */
  function Processed(entries: seq<(string, CatalogItem)>, fetch: string -> Result<Body, ApiClient.ApiError>): (k: nat)
    ensures k <= |entries|
    decreases |entries|
  {
    if entries == [] then 0
    else if LoadSpec(entries[..|entries| - 1], fetch).Err? then Processed(entries[..|entries| - 1], fetch)
    else if LoadSpec(entries, fetch).Err? then |entries| - 1
    else |entries|
  }

  /** The values handed to the callback after the first `k` of `n` items. */
  function Progress(k: nat, n: nat): (r: seq<real>)
    requires k <= n
    ensures |r| == k
  {
    seq(k, i requires 0 <= i < k => (i + 1) as real / n as real)
  }

  /** Once a prefix has failed, the items after it change nothing. */
  lemma {:induction false} FailureIsFinal(entries: seq<(string, CatalogItem)>, j: nat, fetch: string -> Result<Body, ApiClient.ApiError>)
    requires j <= |entries| && LoadSpec(entries[..j], fetch).Err?
    ensures LoadSpec(entries, fetch) == LoadSpec(entries[..j], fetch)
    ensures Processed(entries, fetch) == Processed(entries[..j], fetch)
    decreases |entries| - j
  {
    if j < |entries| {
      var longer := entries[..j + 1];
      assert longer[..j] == entries[..j];
      assert LoadSpec(longer, fetch) == LoadSpec(entries[..j], fetch);
      FailureIsFinal(entries, j + 1, fetch);
    } else {
      assert entries[..j] == entries;
    }
  }

  /** The call succeeds exactly when every item does; otherwise it fails with
      the error of the first failing item, and the items before it were all
      inserted. */
  lemma {:induction false} FirstFailureDecides(entries: seq<(string, CatalogItem)>, fetch: string -> Result<Body, ApiClient.ApiError>)
    ensures var k := Processed(entries, fetch);
            && (LoadSpec(entries, fetch).Ok? <==> k == |entries|)
            && LoadSpec(entries[..k], fetch).Ok?
            && (k < |entries| ==> ItemResult(entries[k].0, entries[k].1, fetch).Err?
                                  && LoadSpec(entries, fetch) == Err(ItemResult(entries[k].0, entries[k].1, fetch).error))
    decreases |entries|
  {
    if entries != [] {
      var prefix := entries[..|entries| - 1];
      FirstFailureDecides(prefix, fetch);
      var k := Processed(prefix, fetch);
      assert prefix[..k] == entries[..k];
      if LoadSpec(prefix, fetch).Ok? {
        assert prefix == entries[..|entries| - 1];
        assert entries[..|entries|] == entries;
      }
    }
  }

  /** The resource paths of the items, in a set. */
  function Paths(entries: seq<(string, CatalogItem)>): set<string> {
    set i | 0 <= i < |entries| :: entries[i].0
  }

  lemma PathsOfLonger(entries: seq<(string, CatalogItem)>)
    requires entries != []
    ensures Paths(entries) == Paths(entries[..|entries| - 1]) + {entries[|entries| - 1].0}
  {
    var prefix := entries[..|entries| - 1];
    forall x | x in Paths(entries)
      ensures x in Paths(prefix) + {entries[|entries| - 1].0}
    {
      var i :| 0 <= i < |entries| && entries[i].0 == x;
      if i < |entries| - 1 { assert prefix[i].0 == x; }
    }
    forall x | x in Paths(prefix)
      ensures x in Paths(entries)
    {
      var i :| 0 <= i < |prefix| && prefix[i].0 == x;
      assert entries[i].0 == x;
    }
  }

  /** On success the map has one entry per item, keyed by its path. */
  lemma {:induction false} LoadedKeys(entries: seq<(string, CatalogItem)>, fetch: string -> Result<Body, ApiClient.ApiError>)
    requires LoadSpec(entries, fetch).Ok?
    ensures LoadSpec(entries, fetch).value.Keys == Paths(entries)
    decreases |entries|
  {
    if entries != [] {
      LoadedKeys(entries[..|entries| - 1], fetch);
      PathsOfLonger(entries);
    }
  }

  /** On success each item's entry holds that item's decoded data (the paths are
      the keys of a dictionary, so they are distinct). */
  lemma {:induction false} LoadedValues(entries: seq<(string, CatalogItem)>, fetch: string -> Result<Body, ApiClient.ApiError>, i: nat)
    requires forall a, b :: 0 <= a < b < |entries| ==> entries[a].0 != entries[b].0
    requires LoadSpec(entries, fetch).Ok? && i < |entries|
    ensures ItemResult(entries[i].0, entries[i].1, fetch).Ok?
    ensures entries[i].0 in LoadSpec(entries, fetch).value
    ensures LoadSpec(entries, fetch).value[entries[i].0] == ItemResult(entries[i].0, entries[i].1, fetch).value
    decreases |entries|
  {
    var n := |entries|;
    if i < n - 1 {
      var prefix := entries[..n - 1];
      assert prefix[i] == entries[i];
      assert entries[i].0 != entries[n - 1].0;
      LoadedValues(prefix, fetch, i);
    }
  }

  lemma ProgressAt(k: nat, n: nat, i: nat)
    requires i < k <= n
    ensures Progress(k, n)[i] == (i + 1) as real / n as real
  {
  }

  /** The callback sees strictly increasing values, never more than 1, and the
      last one is 1 when every item was loaded. */
  lemma ProgressShape(k: nat, n: nat)
    requires k <= n
    ensures forall i, j :: 0 <= i < j < k ==> Progress(k, n)[i] < Progress(k, n)[j]
    ensures forall i :: 0 <= i < k ==> 0.0 < Progress(k, n)[i] <= 1.0
    ensures 0 < k == n ==> Progress(k, n)[k - 1] == 1.0
  {
    forall i, j | 0 <= i < j < k
      ensures Progress(k, n)[i] < Progress(k, n)[j]
    {
      ProgressIncreasing(k, n, i, j);
    }
    forall i | 0 <= i < k
      ensures 0.0 < Progress(k, n)[i] <= 1.0
    {
      ProgressBounded(k, n, i);
    }
    if 0 < k == n {
      ProgressLast(n);
    }
  }

  lemma ProgressLast(n: nat)
    requires 0 < n
    ensures Progress(n, n)[n - 1] == 1.0
  {
    ProgressAt(n, n, n - 1);
    DivSelf(n as real);
  }

  lemma DivSelf(x: real)
    requires x != 0.0
    ensures x / x == 1.0
  {
  }

  lemma ProgressIncreasing(k: nat, n: nat, i: nat, j: nat)
    requires i < j < k <= n
    ensures Progress(k, n)[i] < Progress(k, n)[j]
  {
    ProgressAt(k, n, i);
    ProgressAt(k, n, j);
    DivLess((i + 1) as real, (j + 1) as real, n as real);
  }

  lemma ProgressBounded(k: nat, n: nat, i: nat)
    requires i < k <= n
    ensures 0.0 < Progress(k, n)[i] <= 1.0
  {
    ProgressAt(k, n, i);
    DivAtMostOne((i + 1) as real, n as real);
  }

  lemma DivLess(a: real, b: real, n: real)
    requires a < b && 0.0 < n
    ensures a / n < b / n
  {
    assert b / n - a / n == (b - a) / n;
  }

  lemma DivAtMostOne(a: real, n: real)
    requires 0.0 < a <= n
    ensures 0.0 < a / n <= 1.0
  {
    DivSelf(n);
    if a < n { DivLess(a, n, n); }
  }

  /** Adding one more share of 1/n to the accumulated progress. */
  lemma ProgressStep(i: nat, n: nat)
    requires i < n
    ensures i as real / n as real + 1.0 / n as real == (i + 1) as real / n as real
    ensures Progress(i + 1, n) == Progress(i, n) + [(i + 1) as real / n as real]
  {
    assert i as real / n as real + 1.0 / n as real == (i as real + 1.0) / n as real;
  }

  /** One more item on top of a prefix that loaded: it either fails the whole
      call with its error, or extends the map and the count. */
  lemma LoadStep(entries: seq<(string, CatalogItem)>, i: nat, fetch: string -> Result<Body, ApiClient.ApiError>,
                 result: map<string, DataResponse>)
    requires i < |entries| && LoadSpec(entries[..i], fetch) == Ok(result) && Processed(entries[..i], fetch) == i
    ensures var item := ItemResult(entries[i].0, entries[i].1, fetch);
            && (item.Err? ==> LoadSpec(entries, fetch) == Err(item.error) && Processed(entries, fetch) == i)
            && (item.Ok? ==> LoadSpec(entries[..i + 1], fetch) == Ok(result[entries[i].0 := item.value])
                             && Processed(entries[..i + 1], fetch) == i + 1)
  {
    var longer := entries[..i + 1];
    assert longer[..i] == entries[..i];
    assert longer[i] == entries[i];
    if ItemResult(entries[i].0, entries[i].1, fetch).Err? {
      FailureIsFinal(entries, i + 1, fetch);
    }
  }

  /** `LoadAsync` over the catalog search result `entries` (in its enumeration
      order); `notify` says whether a callback was given, and `reports` are the
      values it received. */
  method Load(entries: seq<(string, CatalogItem)>, fetch: string -> Result<Body, ApiClient.ApiError>, notify: bool)
    returns (r: Result<map<string, DataResponse>, LoadError>, reports: seq<real>)
    ensures r == LoadSpec(entries, fetch)
    ensures reports == if notify then Progress(Processed(entries, fetch), |entries|) else []
  {
    var result: map<string, DataResponse> := map[];
    var progress := 0.0;
    var n := |entries|;
    reports := [];
    var i := 0;
    while i < n
      invariant 0 <= i <= n
      invariant LoadSpec(entries[..i], fetch) == Ok(result)
      invariant Processed(entries[..i], fetch) == i
      invariant progress == if n == 0 then 0.0 else i as real / n as real
      invariant reports == if notify then Progress(i, n) else []
    {
      var (path, item) := entries[i];
      LoadStep(entries, i, fetch, result);
      var fetched := fetch(path);
      if fetched.Err? {
        return Err(FetchFailed(fetched.error)), reports;
      }
      var samples, _ := ReadAsDoubles(fetched.value);
      if samples.Err? {
        return Err(FrameFailed(samples.error)), reports;
      }
      var unit := StringProperty(item.resource, "unit");
      var description := StringProperty(item.resource, "description");
      var response := DataResponse(item, item.resource.id, unit, description, item.samplePeriod, samples.value);
      result := result[path := response];
      ProgressStep(i, n);
      progress := progress + 1.0 / n as real;
      if notify {
        reports := reports + [progress];
      }
      i := i + 1;
    }
    assert entries[..n] == entries;
    r := Ok(result);
  }
}
