/**
 * `process_wind_data` from the resolved run onwards (lines 121-188): the
 * cache check, the five fetch attempts and the cache write. `Process` says
 * what a request yields and leaves behind; the method `ProcessWindData`
 * does it step by step, as the source does, and is proved to agree.
 */
module WindData {
  import opened Wrappers
  import opened Calendar
  import opened CycleResolver
  import opened Grid
  import opened Serializer
  import opened Cache

  /**
   * Herbie plus the GRIB decode at attempt `k` of a request (0 to 4) for
   * `(init, fxx, level)`: the dataset it yields, or `None` when it raises.
   * Every attempt is a fresh download, so a repeated hour may succeed
   * after a temporary failure.
   */
  type Fetcher = (nat, int, int, int) -> Option<Dataset>

  /** The forecast hours tried, in order (line 147): duplicates are kept. */
  function Candidates(fxx: int): (c: seq<int>)
    ensures |c| == 5 && c[0] == fxx && c[3] == fxx + 1 && c[4] == fxx + 2
    ensures c[1] == fxx - 1 || (c[1] == 0 && fxx <= 1)
    ensures c[2] == fxx - 2 || (c[2] == 0 && fxx <= 2)
    ensures 0 <= c[1] && 0 <= c[2]
    ensures fxx >= 0 ==> forall k :: 0 <= k < 5 ==> 0 <= c[k] && fxx - 2 <= c[k] <= fxx + 2
  {
    [fxx, if fxx - 1 > 0 then fxx - 1 else 0, if fxx - 2 > 0 then fxx - 2 else 0, fxx + 1, fxx + 2]
  }

  /** For a run's first hour the list tries hour 0 three times. */
  lemma CandidatesAtRunStart()
    ensures Candidates(0) == [0, 0, 0, 1, 2]
    ensures Candidates(1) == [1, 0, 0, 2, 3]
  {
  }

  /**
   * A repeated hour is a real retry: at the start of a run, a failed first
   * download of hour 0 is followed by a second one of the same hour, and
   * when that one is usable it is the dataset the request goes on with.
   */
  lemma RetryOfTheSameHour(fetch: Fetcher, init: int, level: int)
    ensures Attempt(fetch, 0, init, 0, level).None? && Attempt(fetch, 1, init, 0, level).Some? ==>
      FirstUsable(fetch, init, level, Candidates(0), 0) == Some((1, Attempt(fetch, 1, init, 0, level).value))
  {
    CandidatesAtRunStart();
  }

  /** `fetch_gfs_data`: Herbie's dataset with its longitudes renamed and rolled (lines 13-18). */
  function FetchGfsData(fetch: Fetcher, k: nat, init: int, fxx: int, level: int): (r: Option<Dataset>)
    ensures r.Some? <==> fetch(k, init, fxx, level).Some?
    ensures r.Some? ==> r.value == NormalizeAndRoll(fetch(k, init, fxx, level).value)
  {
    match fetch(k, init, fxx, level)
    case None => None
    case Some(raw) => Some(NormalizeAndRoll(raw))
  }

  /**
   * A dataset the attempt can turn into documents: both wind components
   * (lines 157-159) and two coordinates on each axis for the steps at
   * lines 164-165, whose IndexError the attempt's `except` catches.
   */
  predicate Usable(ds: Dataset) {
    "u" in ds.fields && "v" in ds.fields && |ds.longitude| >= 2 && |ds.latitude| >= 2
  }

  /** One attempt of the loop: the dataset it goes on with, or `None` when it moves on. */
  function Attempt(fetch: Fetcher, k: nat, init: int, fxx: int, level: int): (r: Option<Dataset>)
    ensures r.Some? ==> Usable(r.value) && FetchGfsData(fetch, k, init, fxx, level) == r
    ensures r.None? ==> FetchGfsData(fetch, k, init, fxx, level).None? || !Usable(FetchGfsData(fetch, k, init, fxx, level).value)
  {
    var data := FetchGfsData(fetch, k, init, fxx, level);
    if data.Some? && Usable(data.value) then data else None
  }

  /**
   * The first candidate from attempt `start` on whose attempt goes on, with
   * its dataset; every attempt between `start` and it moved on.
   */
  function FirstUsable(fetch: Fetcher, init: int, level: int, candidates: seq<int>, start: nat): (r: Option<(nat, Dataset)>)
    requires start <= |candidates|
    decreases |candidates| - start
    ensures r.Some? ==>
      && start <= r.value.0 < |candidates|
      && Attempt(fetch, r.value.0, init, candidates[r.value.0], level) == Some(r.value.1)
      && forall k :: start <= k < r.value.0 ==> Attempt(fetch, k, init, candidates[k], level).None?
    ensures r.None? ==> forall k :: start <= k < |candidates| ==> Attempt(fetch, k, init, candidates[k], level).None?
  {
    if start == |candidates| then None
    else
      var attempt := Attempt(fetch, start, init, candidates[start], level);
      if attempt.Some? then Some((start, attempt.value))
      else FirstUsable(fetch, init, level, candidates, start + 1)
  }

  /** Lines 164-165: the grid steps, from the first two coordinates of each axis. */
  function LonStep(ds: Dataset): (step: real)
    requires |ds.longitude| >= 2
    ensures ds.longitude[0] + step == ds.longitude[1]
  {
    ds.longitude[1] - ds.longitude[0]
  }

  /** Latitudes run north to south, so the step is the first minus the second. */
  function LatStep(ds: Dataset): (step: real)
    requires |ds.latitude| >= 2
    ensures ds.latitude[1] + step == ds.latitude[0]
  {
    ds.latitude[0] - ds.latitude[1]
  }

  /** The document of one component of a usable dataset. */
  function ComponentDoc(ds: Dataset, component: string, level: int, target: int, init: int): Doc
    requires Usable(ds) && component in ds.fields
  {
    Doc(MakeHeader(component, level, target, init, ds.longitude, ds.latitude, LonStep(ds), LatStep(ds)),
        Sanitized(Flatten(ds.fields[component])))
  }

  /** Two headers for the same run, target, level and grid. */
  predicate SameRunAndGrid(a: Header, b: Header) {
    && a.forecastTime == b.forecastTime && a.refTime == b.refTime && a.surface1Value == b.surface1Value
    && a.nx == b.nx && a.ny == b.ny && a.lo1 == b.lo1 && a.la1 == b.la1 && a.lo2 == b.lo2 && a.la2 == b.la2
    && a.dx == b.dx && a.dy == b.dy
  }

  /** The `u` and `v` headers differ only in the component: same run, target, level and grid. */
  lemma ComponentsShareRunAndGrid(ds: Dataset, level: int, target: int, init: int)
    requires Usable(ds)
    ensures SameRunAndGrid(ComponentDoc(ds, "u", level, target, init).header, ComponentDoc(ds, "v", level, target, init).header)
  {
  }

  /**
   * Line 170: the `u` document, then the `v` document, each holding its own
   * component's cells under one shared description of run, time, level and grid.
   */
  function WireDocs(ds: Dataset, level: int, target: int, init: int): (docs: seq<Doc>)
    requires Usable(ds)
    ensures |docs| == 2
    ensures docs[0].header.parameterNumber == 2 && WindMetadata(docs[0].header, "u")
    ensures docs[1].header.parameterNumber == 3 && WindMetadata(docs[1].header, "v")
    ensures docs[0].data == Sanitized(Flatten(ds.fields["u"])) && docs[1].data == Sanitized(Flatten(ds.fields["v"]))
  {
    [ComponentDoc(ds, "u", level, target, init), ComponentDoc(ds, "v", level, target, init)]
  }

  /**
   * What a request answers. `Failure` is line 188: `None(__file__)` raises
   * a TypeError instead of returning, which the server reports as an error.
   */
  datatype Response = Docs(docs: seq<Doc>) | Failure

  /** The cache file of a request: named after the resolved run, never after a neighbouring attempt. */
  function RequestName(target: int, now: int, level: int): string {
    var run := FloorToRun(EffectiveTarget(target, now));
    CacheName(run.init, run.fxx, level)
  }

  /**
   * A request end to end, from the resolved run on: a fresh readable cache
   * file is returned as it is; otherwise the first usable attempt is
   * serialized, saved under the request's name when the write succeeds,
   * and returned; when no attempt is usable nothing is written.
   */
  function Process(files: map<string, Entry>, target: int, level: int, now: int, checkedAt: int,
                   savedAt: int, fetch: Fetcher, saveOk: bool): (out: (Response, map<string, Entry>))
    ensures out.0.Failure? ==> out.1 == files
    ensures var name := RequestName(target, now, level);
      out.1 == files || (name in out.1 && out.1 == files[name := out.1[name]])
  {
    var t := EffectiveTarget(target, now);
    var run := FloorToRun(t);
    var name := RequestName(target, now, level);
    var cached := Lookup(files, name, checkedAt);
    if cached.Some? then (Docs(cached.value), files)
    else
      var found := FirstUsable(fetch, run.init, level, Candidates(run.fxx), 0);
      if found.None? then (Failure, files)
      else
        var docs := WireDocs(found.value.1, level, t, run.init);
        var written := files[name := Entry(savedAt, Some(docs))];
        assert written == files[name := written[name]];
        (Docs(docs), if saveOk then written else files)
  }

  /**
   * Lines 51-188 step by step: resolve the run, try the cache, and on a
   * miss go through the candidates.
   */
  method ProcessWindData(store: FileStore, target: int, level: int, now: int, checkedAt: int,
                         savedAt: int, fetch: Fetcher, saveOk: bool) returns (resp: Response)
    modifies store
    ensures (resp, store.files) == Process(old(store.files), target, level, now, checkedAt, savedAt, fetch, saveOk)
  {
    var t, init, fxx := ResolveCycle(target, now);
    resp := ServeRun(store, target, level, now, checkedAt, savedAt, fetch, saveOk, t, init, fxx);
  }

  /**
   * Lines 121-188 for the resolved run `init`, `fxx` of the clamped target
   * `t`: name the cache file, serve it when fresh and readable, otherwise
   * go through the candidates.
   */
  method ServeRun(store: FileStore, target: int, level: int, now: int, checkedAt: int,
                  savedAt: int, fetch: Fetcher, saveOk: bool, t: int, init: int, fxx: int) returns (resp: Response)
    requires t == EffectiveTarget(target, now)
    requires init == FloorToRun(t).init && fxx == FloorToRun(t).fxx
    modifies store
    ensures (resp, store.files) == Process(old(store.files), target, level, now, checkedAt, savedAt, fetch, saveOk)
  {
    var filename := CacheName(init, fxx, level);
    if filename in store.files {
      var entry := store.files[filename];
      if checkedAt - entry.modifiedAt < STALE_AFTER && entry.content.Some? {
        resp := Docs(entry.content.value);
        FreshHitIsServedVerbatim(store.files, target, level, now, checkedAt, savedAt, fetch, saveOk);
        return;
      }
    }
    assert Lookup(store.files, filename, checkedAt).None?;
    resp := TryCandidates(store, filename, Candidates(fxx), t, init, level, savedAt, fetch, saveOk);
  }

  /**
   * Lines 146-188: the candidates in order, `continue` on a failed fetch
   * or a missing component, and at the first usable dataset serialize,
   * save under `filename` and return.
   */
  method TryCandidates(store: FileStore, filename: string, candidates: seq<int>, t: int, init: int, level: int,
                       savedAt: int, fetch: Fetcher, saveOk: bool) returns (resp: Response)
    modifies store
    ensures var found := FirstUsable(fetch, init, level, candidates, 0);
      && (found.None? ==> resp == Failure && store.files == old(store.files))
      && (found.Some? ==>
            && resp == Docs(WireDocs(found.value.1, level, t, init))
            && store.files == if saveOk then old(store.files)[filename := Entry(savedAt, Some(resp.docs))] else old(store.files))
  {
    var i := 0;
    while i < |candidates|
      invariant 0 <= i <= |candidates|
      invariant forall k :: 0 <= k < i ==> Attempt(fetch, k, init, candidates[k], level).None?
      invariant store.files == old(store.files)
    {
      var attemptFxx := candidates[i];
      var gfsData := FetchGfsData(fetch, i, init, attemptFxx, level);
      AttemptOf(fetch, i, init, attemptFxx, level, gfsData);
      if gfsData.Some? {
        var ds := gfsData.value;
        if "u" in ds.fields && "v" in ds.fields && |ds.longitude| >= 2 && |ds.latitude| >= 2 {
          var result := SerializeBoth(ds, level, t, init);
          FirstUsableAt(fetch, init, level, candidates, i, ds);
          store.Save(filename, result, savedAt, saveOk);
          resp := Docs(result);
          return;
        }
      }
      i := i + 1;
    }
    FirstUsableNone(fetch, init, level, candidates);
    resp := Failure;
  }

  /** Lines 164-170: the steps from the first two coordinates, then the `u` and `v` documents. */
  method SerializeBoth(ds: Dataset, level: int, t: int, init: int) returns (result: seq<Doc>)
    requires Usable(ds)
    ensures result == WireDocs(ds, level, t, init)
  {
    var lonStep := LonStep(ds);
    var latStep := LatStep(ds);
    var velocityU := ConvertWindToVelocityJson(ds.fields["u"], "u", level, t, init, ds.longitude, ds.latitude, lonStep, latStep);
    var velocityV := ConvertWindToVelocityJson(ds.fields["v"], "v", level, t, init, ds.longitude, ds.latitude, lonStep, latStep);
    assert velocityU == ComponentDoc(ds, "u", level, t, init);
    assert velocityV == ComponentDoc(ds, "v", level, t, init);
    result := [velocityU, velocityV];
  }

  /** The first attempt to go on is the one `FirstUsable` finds. */
  lemma FirstUsableAt(fetch: Fetcher, init: int, level: int, candidates: seq<int>, i: int, ds: Dataset)
    requires 0 <= i < |candidates|
    requires forall k :: 0 <= k < i ==> Attempt(fetch, k, init, candidates[k], level).None?
    requires Attempt(fetch, i, init, candidates[i], level) == Some(ds)
    ensures FirstUsable(fetch, init, level, candidates, 0) == Some((i, ds))
  {
  }

  /** When no attempt goes on, `FirstUsable` finds nothing. */
  lemma FirstUsableNone(fetch: Fetcher, init: int, level: int, candidates: seq<int>)
    requires forall k :: 0 <= k < |candidates| ==> Attempt(fetch, k, init, candidates[k], level).None?
    ensures FirstUsable(fetch, init, level, candidates, 0) == None
  {
  }

  lemma AttemptOf(fetch: Fetcher, k: nat, init: int, fxx: int, level: int, data: Option<Dataset>)
    requires data == FetchGfsData(fetch, k, init, fxx, level)
    ensures data.Some? && Usable(data.value) ==> Attempt(fetch, k, init, fxx, level) == data
    ensures !(data.Some? && Usable(data.value)) ==> Attempt(fetch, k, init, fxx, level) == None
  {
  }

  /** A fresh, readable cache file is returned verbatim and nothing is fetched or written. */
  lemma FreshHitIsServedVerbatim(files: map<string, Entry>, target: int, level: int, now: int, checkedAt: int,
                                 savedAt: int, fetch: Fetcher, saveOk: bool)
    ensures var name := RequestName(target, now, level);
      Lookup(files, name, checkedAt).Some? ==>
        Process(files, target, level, now, checkedAt, savedAt, fetch, saveOk) == (Docs(files[name].content.value), files)
  {
  }

  /** When every attempt fails the request fails and the cache is left alone. */
  lemma FailureWritesNothing(files: map<string, Entry>, target: int, level: int, now: int, checkedAt: int,
                             savedAt: int, fetch: Fetcher, saveOk: bool)
    ensures var out := Process(files, target, level, now, checkedAt, savedAt, fetch, saveOk);
      out.0.Failure? ==> out.1 == files
    ensures var run := FloorToRun(EffectiveTarget(target, now));
      var out := Process(files, target, level, now, checkedAt, savedAt, fetch, saveOk);
      out.0.Failure? <==>
        Lookup(files, RequestName(target, now, level), checkedAt).None?
        && forall k :: 0 <= k < 5 ==> Attempt(fetch, k, run.init, Candidates(run.fxx)[k], level).None?
  {
    var run := FloorToRun(EffectiveTarget(target, now));
    ProcessFailsOnMissAndNoAttempt(files, target, level, now, checkedAt, savedAt, fetch, saveOk);
    if forall k :: 0 <= k < 5 ==> Attempt(fetch, k, run.init, Candidates(run.fxx)[k], level).None? {
      FirstUsableNone(fetch, run.init, level, Candidates(run.fxx));
    }
  }

  lemma ProcessFailsOnMissAndNoAttempt(files: map<string, Entry>, target: int, level: int, now: int, checkedAt: int,
                                       savedAt: int, fetch: Fetcher, saveOk: bool)
    ensures var run := FloorToRun(EffectiveTarget(target, now));
      var out := Process(files, target, level, now, checkedAt, savedAt, fetch, saveOk);
      && (out.0.Failure? <==>
            Lookup(files, RequestName(target, now, level), checkedAt).None?
            && FirstUsable(fetch, run.init, level, Candidates(run.fxx), 0).None?)
      && (out.0.Failure? ==> out.1 == files)
  {
  }

  /**
   * A request writes at most one file, under its own name, and only what
   * it returns: every other name is untouched.
   */
  lemma WritesOnlyItsOwnName(files: map<string, Entry>, target: int, level: int, now: int, checkedAt: int,
                             savedAt: int, fetch: Fetcher, saveOk: bool)
    ensures var out := Process(files, target, level, now, checkedAt, savedAt, fetch, saveOk);
      out.1 == files
      || (out.0.Docs? && saveOk && out.1 == files[RequestName(target, now, level) := Entry(savedAt, Some(out.0.docs))])
  {
  }

  /** A header for `run` at `level`: its forecast hour, its start as the reference time, the level. */
  predicate DescribesRun(h: Header, run: Run, level: int) {
    h.forecastTime == run.fxx && h.refTime == UtcTimestamp(run.init) && h.surface1Value == level
  }

  /**
   * Documents built for the resolved run: forecast time is its forecast
   * hour, reference time its start, at the requested level.
   */
  lemma WireDocsDescribeRun(ds: Dataset, level: int, t: int)
    requires Usable(ds)
    ensures var run := FloorToRun(t);
      var docs := WireDocs(ds, level, t, run.init);
      DescribesRun(docs[0].header, run, level) && DescribesRun(docs[1].header, run, level)
  {
    var run := FloorToRun(t);
    assert (t - run.init) / HOUR == run.fxx by {
      FloorToRunIsCycle(t);
    }
    ComponentDescribesRun(ds, "u", level, t, run);
    ComponentDescribesRun(ds, "v", level, t, run);
  }

  lemma ComponentDescribesRun(ds: Dataset, component: string, level: int, t: int, run: Run)
    requires Usable(ds) && component in ds.fields
    requires (t - run.init) / HOUR == run.fxx
    ensures DescribesRun(ComponentDoc(ds, component, level, t, run.init).header, run, level)
  {
  }

  /** A fetched answer is the `u` and `v` documents of the resolved run. */
  lemma AnswerDescribesResolvedRun(files: map<string, Entry>, target: int, level: int, now: int, checkedAt: int,
                                   savedAt: int, fetch: Fetcher, saveOk: bool)
    ensures var run := FloorToRun(EffectiveTarget(target, now));
      var out := Process(files, target, level, now, checkedAt, savedAt, fetch, saveOk);
      Lookup(files, RequestName(target, now, level), checkedAt).None? && out.0.Docs? ==>
        && |out.0.docs| == 2
        && out.0.docs[0].header.parameterNumber == 2 && out.0.docs[1].header.parameterNumber == 3
        && DescribesRun(out.0.docs[0].header, run, level) && DescribesRun(out.0.docs[1].header, run, level)
  {
    var run := FloorToRun(EffectiveTarget(target, now));
    var found := FirstUsable(fetch, run.init, level, Candidates(run.fxx), 0);
    if Lookup(files, RequestName(target, now, level), checkedAt).None? && found.Some? {
      MissAnswer(files, target, level, now, checkedAt, savedAt, fetch, saveOk);
      WireDocsDescribeRun(found.value.1, level, EffectiveTarget(target, now));
    }
  }

  /**
   * On a cache miss the answer is the documents of the first usable
   * attempt, saved under the request's name when the write succeeds, or a
   * failure that writes nothing.
   */
  lemma MissAnswer(files: map<string, Entry>, target: int, level: int, now: int, checkedAt: int,
                   savedAt: int, fetch: Fetcher, saveOk: bool)
    requires Lookup(files, RequestName(target, now, level), checkedAt).None?
    ensures var t := EffectiveTarget(target, now);
      var run := FloorToRun(t);
      var found := FirstUsable(fetch, run.init, level, Candidates(run.fxx), 0);
      Process(files, target, level, now, checkedAt, savedAt, fetch, saveOk)
        == if found.None? then (Failure, files)
           else
             var docs := WireDocs(found.value.1, level, t, run.init);
             (Docs(docs), if saveOk then files[RequestName(target, now, level) := Entry(savedAt, Some(docs))] else files)
  {
  }

  /**
   * A saved answer is served back: the same request within six hours of
   * the write gets the same documents from the cache, whatever Herbie
   * would now say, and writes nothing.
   */
  lemma SavedAnswerIsServedAgain(files: map<string, Entry>, target: int, level: int, now: int, checkedAt: int,
                                 savedAt: int, fetch: Fetcher, checkedAgain: int, savedAgain: int,
                                 fetchAgain: Fetcher, saveAgain: bool)
    requires checkedAgain - savedAt < STALE_AFTER
    ensures var first := Process(files, target, level, now, checkedAt, savedAt, fetch, true);
      Lookup(files, RequestName(target, now, level), checkedAt).None? && first.0.Docs? ==>
        Process(first.1, target, level, now, checkedAgain, savedAgain, fetchAgain, saveAgain) == first
  {
  }

  /** Requests resolving to different runs or levels never share a cache file. */
  lemma DistinctRunsDistinctFiles(target: int, now: int, level: int, target2: int, now2: int, level2: int)
    ensures var t, t2 := EffectiveTarget(target, now), EffectiveTarget(target2, now2);
      InDatetimeRange(t) && InDatetimeRange(t2) && RequestName(target, now, level) == RequestName(target2, now2, level2) ==>
        FloorToRun(t).init == FloorToRun(t2).init && FloorToRun(t).fxx == FloorToRun(t2).fxx && level == level2
  {
    var t, t2 := EffectiveTarget(target, now), EffectiveTarget(target2, now2);
    if InDatetimeRange(t) && InDatetimeRange(t2) && RequestName(target, now, level) == RequestName(target2, now2, level2) {
      FloorToRunIsCycle(t);
      FloorToRunIsCycle(t2);
      var r, r2 := FloorToRun(t), FloorToRun(t2);
      assert InDatetimeRange(r.init) && InDatetimeRange(r2.init);
      CacheNameInjective(r.init, r.fxx, level, r2.init, r2.fxx, level2);
    }
  }
}
