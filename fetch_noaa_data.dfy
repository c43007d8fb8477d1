/**
  The selection and classification rules of the NOAA data pipeline: which
  stations are processed (a custom id list, the test list or all stations),
  the retry schedule for fetching one station's harmonic constituents, and the
  loop that marks each processed station "harmonic" or "subordinate".  HTTP
  requests are replaced by an oracle that gives the outcome of each request;
  sleeping is replaced by the list of waits the schedule asks for.
*/
module FetchNoaaData {
  import opened Wrappers
  import PyStrings

  /** A decoded JSON value.  Python's None and JSON null are both Null. */
  datatype Value =
    | Null
    | Bool(b: bool)
    | Number(n: real)
    | Str(s: string)
    | Array(items: seq<Value>)
    | Object(fields: map<string, Value>)

  /** Python truthiness of a decoded JSON value: only None, False, zero and the empty string, list and dict are false. */
  predicate Truthy(v: Value): (b: bool)
    ensures !b <==> v in {Null, Bool(false), Number(0.0), Str(""), Array([]), Object(map[])}
  {
    match v
    case Null => false
    case Bool(b) => b
    case Number(n) => n != 0.0
    case Str(s) => s != ""
    case Array(items) => items != []
    case Object(fields) => fields != map[]
  }

  /** One station as the stations API returns it: a JSON object. */
  type Station = map<string, Value>

  const MaxRetries: nat := 3

  const TestStations: seq<string> := ["9414290", "8454000", "8518750", "8658120", "8636580"]

  /** station.get("id") when it is a string; any other id never equals a requested id. */
  function StationIdOf(station: Station): (id: Option<string>)
    ensures id.Some? <==> "id" in station && station["id"].Str?
    ensures id.Some? ==> station["id"] == Str(id.value)
  {
    if "id" in station && station["id"].Str? then Some(station["id"].s) else None
  }

  predicate Requested(station: Station, ids: set<string>)
  {
    StationIdOf(station).Some? && StationIdOf(station).value in ids
  }

  function IdSet(ids: seq<string>): (r: set<string>)
  {
    set id | id in ids
  }

  /** xs is ys with some elements removed, in the same order. */
  predicate IsSubsequence<T(==)>(xs: seq<T>, ys: seq<T>)
    decreases |ys|
  {
    if xs == [] then true
    else if ys == [] then false
    else (xs[0] == ys[0] && IsSubsequence(xs[1..], ys[1..])) || IsSubsequence(xs, ys[1..])
  }

  lemma {:induction false} SubsequenceOfItself<T>(xs: seq<T>)
    ensures IsSubsequence(xs, xs)
  {
    if xs != [] {
      SubsequenceOfItself(xs[1..]);
    }
  }

  /**
    The list comprehension of filter_stations: the stations whose id is
    requested, in input order.  Each input station occurs in the output as
    often as in the input when its id is requested, and not at all otherwise.
  */
  function KeepRequested(allStations: seq<Station>, ids: set<string>): (kept: seq<Station>)
    ensures forall k :: 0 <= k < |kept| ==> Requested(kept[k], ids)
    ensures IsSubsequence(kept, allStations)
    ensures forall s :: multiset(kept)[s] == if Requested(s, ids) then multiset(allStations)[s] else 0
  {
    if allStations == [] then []
    else
      var rest := KeepRequested(allStations[1..], ids);
      assert allStations == [allStations[0]] + allStations[1..];
      if Requested(allStations[0], ids) then
        assert ([allStations[0]] + rest)[1..] == rest;
        [allStations[0]] + rest
      else
        rest
  }

  /** Ids of the given stations: found_ids. */
  function FoundIds(stations: seq<Station>): (r: set<string>)
  {
    set k | 0 <= k < |stations| && StationIdOf(stations[k]).Some? :: StationIdOf(stations[k]).value
  }

  /** What filter_stations produces: the kept stations and the requested ids it warns about. */
  datatype Filtered = Filtered(stations: seq<Station>, missing: set<string>)

  /**
    filter_stations: keeps the stations whose id is requested, in input order,
    and reports as missing the requested ids that no input station has (the
    source warns when that set is non-empty, fetch_noaa_data.py:109).
  */
  function FilterStations(allStations: seq<Station>, stationIds: seq<string>): (r: Filtered)
    ensures forall k :: 0 <= k < |r.stations| ==>
      StationIdOf(r.stations[k]).Some? && StationIdOf(r.stations[k]).value in stationIds
    ensures IsSubsequence(r.stations, allStations)
    ensures forall s :: multiset(r.stations)[s] ==
                        if Requested(s, IdSet(stationIds)) then multiset(allStations)[s] else 0
    ensures forall id :: id in r.missing <==>
      id in stationIds && forall k :: 0 <= k < |allStations| ==> StationIdOf(allStations[k]) != Some(id)
  {
    var idSet := IdSet(stationIds);
    var filtered := KeepRequested(allStations, idSet);
    var foundIds := FoundIds(filtered);
    MissingIds(allStations, idSet, filtered);
    Filtered(filtered, idSet - foundIds)
  }

  /** A requested id is found exactly when some input station carries it. */
  lemma MissingIds(allStations: seq<Station>, idSet: set<string>, filtered: seq<Station>)
    requires filtered == KeepRequested(allStations, idSet)
    ensures forall id :: id in idSet - FoundIds(filtered) <==>
      id in idSet && forall k :: 0 <= k < |allStations| ==> StationIdOf(allStations[k]) != Some(id)
  {
    forall id | id in idSet
      ensures id in FoundIds(filtered) <==> exists k :: 0 <= k < |allStations| && StationIdOf(allStations[k]) == Some(id)
    {
      if id in FoundIds(filtered) {
        var j :| 0 <= j < |filtered| && StationIdOf(filtered[j]) == Some(id);
        assert multiset(filtered)[filtered[j]] > 0;
        assert filtered[j] in allStations;
      }
      if k :| 0 <= k < |allStations| && StationIdOf(allStations[k]) == Some(id) {
        assert multiset(allStations)[allStations[k]] > 0;
        assert allStations[k] in filtered;
        var j :| 0 <= j < |filtered| && filtered[j] == allStations[k];
      }
    }
  }

  /** Repeating a requested id changes nothing: the requested ids pass through a set. */
  lemma FilterIgnoresRepeatedIds(allStations: seq<Station>, stationIds: seq<string>, k: nat)
    requires k < |stationIds|
    ensures FilterStations(allStations, stationIds + [stationIds[k]]) == FilterStations(allStations, stationIds)
  {
    assert IdSet(stationIds + [stationIds[k]]) == IdSet(stationIds);
  }

  /** The --mode choice. */
  datatype Mode = Test | Production

  datatype SelectionError = NoStationsToProcess

  /** --stations split on commas, each piece stripped of surrounding whitespace. */
  function CustomStationIds(stationsArg: string): (ids: seq<string>)
    ensures |ids| == PyStrings.Count(stationsArg, ',') + 1
    ensures forall k :: 0 <= k < |ids| ==> ',' !in ids[k]
    ensures forall k :: 0 <= k < |ids| ==> ids[k] == [] || (!PyStrings.IsSpace(ids[k][0]) && !PyStrings.IsSpace(ids[k][|ids[k]| - 1]))
    ensures forall k :: 0 <= k < |ids| ==> ids[k] == PyStrings.Strip(PyStrings.Split(stationsArg, ',')[k])
  {
    var parts := PyStrings.Split(stationsArg, ',');
    seq(|parts|, k requires 0 <= k < |parts| => PyStrings.Strip(parts[k]))
  }

  /**
    Which ids select the stations: the custom list when --stations is a
    non-empty string, whatever the mode; else the test list in test mode; None
    in production mode, where every station is kept.
  */
  function RequestedIds(stationsArg: Option<string>, mode: Mode): (ids: Option<seq<string>>)
    ensures stationsArg.Some? && stationsArg.value != "" ==> ids == Some(CustomStationIds(stationsArg.value))
    ensures (stationsArg.None? || stationsArg.value == "") && mode == Test ==> ids == Some(TestStations)
    ensures (stationsArg.None? || stationsArg.value == "") && mode == Production ==> ids == None
  {
    if stationsArg.Some? && stationsArg.value != "" then Some(CustomStationIds(stationsArg.value))
    else if mode == Test then Some(TestStations)
    else None
  }

  /**
    The station selection of main: filter by the requested ids, or keep all
    stations in production mode; an empty selection is an error.
  */
  function SelectStations(allStations: seq<Station>, stationsArg: Option<string>, mode: Mode): (r: Result<Filtered, SelectionError>)
    ensures r.Success? ==> r.value.stations != [] && IsSubsequence(r.value.stations, allStations)
    ensures match RequestedIds(stationsArg, mode)
      case Some(ids) =>
        (r.Success? <==> FilterStations(allStations, ids).stations != [])
        && (r.Success? ==> r.value == FilterStations(allStations, ids))
      case None =>
        (r.Success? <==> allStations != [])
        && (r.Success? ==> r.value == Filtered(allStations, {}))
  {
    SubsequenceOfItself(allStations);
    var selection := match RequestedIds(stationsArg, mode)
                     case Some(ids) => FilterStations(allStations, ids)
                     case None => Filtered(allStations, {});
    if selection.stations == [] then Failure(NoStationsToProcess) else Success(selection)
  }

  /** A non-empty --stations list decides the selection on its own: the mode does not matter. */
  lemma CustomListOverridesMode(allStations: seq<Station>, stationsArg: string, mode1: Mode, mode2: Mode)
    requires stationsArg != ""
    ensures SelectStations(allStations, Some(stationsArg), mode1) == SelectStations(allStations, Some(stationsArg), mode2)
  {
  }

  /** In test mode without a custom list, every selected station is one of the test stations. */
  lemma TestModeSelectsTestStations(allStations: seq<Station>, stationsArg: Option<string>)
    requires stationsArg.None? || stationsArg.value == ""
    requires SelectStations(allStations, stationsArg, Test).Success?
    ensures var selected := SelectStations(allStations, stationsArg, Test).value.stations;
      forall k :: 0 <= k < |selected| ==> StationIdOf(selected[k]).Some? && StationIdOf(selected[k]).value in TestStations
  {
  }

  /** The outcome of one request for a station's harmonic constituents. */
  datatype AttemptOutcome =
    | NotFound             // HTTP 404
    | RequestFailed        // requests raised a RequestException (network, HTTP error status, bad JSON)
    | Received(body: Value) // the decoded JSON body

  function Pow2(k: nat): (p: nat)
    ensures p >= 1
  {
    if k == 0 then 1 else 2 * Pow2(k - 1)
  }

  /** The waits of the exponential backoff after n failed attempts: 1, 2, 4, ... seconds. */
  function BackoffSchedule(n: nat): (waits: seq<nat>)
    ensures |waits| == n
    ensures forall k :: 0 <= k < n ==> waits[k] == Pow2(k)
  {
    if n == 0 then [] else BackoffSchedule(n - 1) + [Pow2(n - 1)]
  }

  function Sum(xs: seq<nat>): (total: nat)
  {
    if xs == [] then 0 else Sum(xs[..|xs| - 1]) + xs[|xs| - 1]
  }

  /** The whole backoff after n failed attempts lasts 2^n - 1 seconds. */
  lemma {:induction false} BackoffTotal(n: nat)
    ensures Sum(BackoffSchedule(n)) == Pow2(n) - 1
  {
    if n > 0 {
      BackoffTotal(n - 1);
      assert BackoffSchedule(n)[..n - 1] == BackoffSchedule(n - 1);
    }
  }

  /** Requests made from attempt `from` on: up to the first that does not fail, or up to the last allowed. */
  function AttemptsFrom(outcomes: seq<AttemptOutcome>, from: nat): (n: nat)
    requires |outcomes| == MaxRetries && from < MaxRetries
    ensures from < n <= MaxRetries
    ensures forall k :: from <= k < n - 1 ==> outcomes[k].RequestFailed?
    ensures n < MaxRetries ==> !outcomes[n - 1].RequestFailed?
    decreases MaxRetries - from
  {
    if from == MaxRetries - 1 || !outcomes[from].RequestFailed? then from + 1
    else AttemptsFrom(outcomes, from + 1)
  }

  /**
    Number of requests fetch_harmonic_constituents makes: at least one, at most
    MaxRetries; every request but the last failed, and the last is the first
    that did not fail unless all MaxRetries failed.
  */
  function AttemptsMade(outcomes: seq<AttemptOutcome>): (n: nat)
    requires |outcomes| == MaxRetries
    ensures 1 <= n <= MaxRetries
    ensures forall k :: 0 <= k < n - 1 ==> outcomes[k].RequestFailed?
    ensures n < MaxRetries ==> !outcomes[n - 1].RequestFailed?
  {
    AttemptsFrom(outcomes, 0)
  }

  /**
    What fetch_harmonic_constituents returns: the body of the first request
    that did not fail; None (Null) when that request was a 404 or when every
    request failed.
  */
  function HarmonicsFetched(outcomes: seq<AttemptOutcome>): (v: Value)
    requires |outcomes| == MaxRetries
    ensures forall k :: 0 <= k < MaxRetries && (forall j :: 0 <= j < k ==> outcomes[j].RequestFailed?) ==>
      (outcomes[k].Received? ==> v == outcomes[k].body) && (outcomes[k].NotFound? ==> v == Null)
    ensures (forall k :: 0 <= k < MaxRetries ==> outcomes[k].RequestFailed?) ==> v == Null
  {
    match outcomes[AttemptsMade(outcomes) - 1]
    case Received(body) => body
    case _ => Null
  }

  lemma HarmonicsFetchedCases(outcomes: seq<AttemptOutcome>)
    requires |outcomes| == MaxRetries
    ensures outcomes[0].NotFound? ==> HarmonicsFetched(outcomes) == Null && AttemptsMade(outcomes) == 1
    ensures outcomes[0].Received? ==> HarmonicsFetched(outcomes) == outcomes[0].body && AttemptsMade(outcomes) == 1
    ensures (forall k :: 0 <= k < MaxRetries ==> outcomes[k].RequestFailed?) ==>
      HarmonicsFetched(outcomes) == Null && AttemptsMade(outcomes) == MaxRetries
    ensures HarmonicsFetched(outcomes) != Null ==> exists k :: 0 <= k < MaxRetries && outcomes[k] == Received(HarmonicsFetched(outcomes))
  {
  }

  /**
    fetch_harmonic_constituents with retries.  `outcomes[k]` is what the k-th
    request would give; `attempts` is the number of requests made and `waits`
    the sleeps between them, in seconds.
  */
  method FetchHarmonicConstituents(outcomes: seq<AttemptOutcome>) returns (harmonics: Value, attempts: nat, waits: seq<nat>)
    requires |outcomes| == MaxRetries
    ensures attempts == AttemptsMade(outcomes)
    ensures harmonics == HarmonicsFetched(outcomes)
    ensures waits == BackoffSchedule(attempts - 1)
    ensures forall k :: 0 <= k < |waits| ==> waits[k] == 1 || waits[k] == 2
  {
    harmonics, attempts, waits := Null, 0, [];
    var attempt := 0;
    while attempt < MaxRetries
      invariant 0 <= attempt < MaxRetries
      invariant attempts == attempt
      invariant forall k :: 0 <= k < attempt ==> outcomes[k].RequestFailed?
      invariant waits == BackoffSchedule(attempt)
    {
      attempts := attempts + 1;
      match outcomes[attempt]
      case NotFound =>
        harmonics := Null;
        return;
      case Received(body) =>
        harmonics := body;
        return;
      case RequestFailed =>
        if attempt < MaxRetries - 1 {
          waits := waits + [Pow2(attempt)];
        } else {
          harmonics := Null;
          return;
        }
      attempt := attempt + 1;
    }
    // The loop always returns: this is the unreachable `return None` after the for loop.
    assert false;
  }

  /**
    One pass of the classification loop on a station: with truthy harmonics the
    station gains "harmonics" and is typed "harmonic", otherwise it is typed
    "subordinate"; every other key keeps its value.
  */
  function Classified(station: Station, harmonics: Value): (r: Station)
    ensures r.Keys == station.Keys + {"type"} + (if Truthy(harmonics) then {"harmonics"} else {})
    ensures r["type"] == Str("harmonic") <==> Truthy(harmonics)
    ensures r["type"] == Str("subordinate") <==> !Truthy(harmonics)
    ensures Truthy(harmonics) ==> r["harmonics"] == harmonics
    ensures forall key :: key in station && key != "type" && (key == "harmonics" ==> !Truthy(harmonics)) ==>
      r[key] == station[key]
  {
    if Truthy(harmonics) then station["harmonics" := harmonics]["type" := Str("harmonic")]
    else station["type" := Str("subordinate")]
  }

  /** len() of a JSON value succeeds for strings, lists and dicts only. */
  predicate HasLength(v: Value)
  {
    v.Str? || v.Array? || v.Object?
  }

  /** len(harmonics.get('HarmonicConstituents', [])) can be evaluated: harmonics is a dict and the entry, if any, has a length. */
  predicate HasConstituentCount(harmonics: Value): (b: bool)
    ensures !harmonics.Object? ==> !b
    ensures harmonics.Object? && "HarmonicConstituents" !in harmonics.fields ==> b
    ensures harmonics.Object? && "HarmonicConstituents" in harmonics.fields ==>
      (b <==> !(harmonics.fields["HarmonicConstituents"].Null? || harmonics.fields["HarmonicConstituents"].Bool?
                || harmonics.fields["HarmonicConstituents"].Number?))
  {
    harmonics.Object?
    && ("HarmonicConstituents" !in harmonics.fields || HasLength(harmonics.fields["HarmonicConstituents"]))
  }

  /**
    The detailed progress line printed for a harmonic station raises
    (AttributeError from .get, or TypeError from len) exactly when the line is
    printed and the truthy harmonics have no constituent count.
  */
  predicate ReportRaises(harmonics: Value, detailed: bool): (b: bool)
    ensures b <==> (detailed && Truthy(harmonics)
                    && (!harmonics.Object?
                        || ("HarmonicConstituents" in harmonics.fields
                            && !HasLength(harmonics.fields["HarmonicConstituents"]))))
    ensures (harmonics.Object? && "HarmonicConstituents" in harmonics.fields
             && harmonics.fields["HarmonicConstituents"].Null?)
            ==> (b <==> detailed && Truthy(harmonics))
  {
    detailed && Truthy(harmonics) && !HasConstituentCount(harmonics)
  }

  /** main stops at the station with this index, before anything is saved. */
  datatype ClassifyError = ReportFailed(index: nat)

  /**
    The loop of main over the selected stations: one enriched entry per
    station, in the same order, each classified by the harmonics fetched for
    it.  Progress lines are detailed when there are fewer than 100 stations or
    verbose is set; the first station whose detailed line raises ends the run.
  */
  method ClassifyStations(stations: seq<Station>, responses: seq<seq<AttemptOutcome>>, verbose: bool)
    returns (r: Result<seq<Station>, ClassifyError>)
    requires |responses| == |stations|
    requires forall i :: 0 <= i < |responses| ==> |responses[i]| == MaxRetries
    ensures r.Success? <==> forall i :: 0 <= i < |stations| ==>
      !ReportRaises(HarmonicsFetched(responses[i]), |stations| < 100 || verbose)
    ensures r.Failure? ==>
      r.error.index < |stations|
      && ReportRaises(HarmonicsFetched(responses[r.error.index]), |stations| < 100 || verbose)
      && forall k :: 0 <= k < r.error.index ==> !ReportRaises(HarmonicsFetched(responses[k]), |stations| < 100 || verbose)
    ensures r.Success? ==> |r.value| == |stations|
    ensures r.Success? ==> forall i :: 0 <= i < |stations| ==>
      r.value[i] == Classified(stations[i], HarmonicsFetched(responses[i]))
    ensures r.Success? ==> forall i :: 0 <= i < |stations| ==> StationIdOf(r.value[i]) == StationIdOf(stations[i])
  {
    var detailed := |stations| < 100 || verbose;
    var enriched := [];
    var i := 0;
    while i < |stations|
      invariant 0 <= i <= |stations|
      invariant |enriched| == i
      invariant forall k :: 0 <= k < i ==> enriched[k] == Classified(stations[k], HarmonicsFetched(responses[k]))
      invariant forall k :: 0 <= k < i ==> !ReportRaises(HarmonicsFetched(responses[k]), detailed)
    {
      var stationData := stations[i];
      var harmonics, _, _ := FetchHarmonicConstituents(responses[i]);
      if Truthy(harmonics) {
        stationData := stationData["harmonics" := harmonics];
        stationData := stationData["type" := Str("harmonic")];
        if detailed && !HasConstituentCount(harmonics) {
          return Failure(ReportFailed(i));
        }
      } else {
        stationData := stationData["type" := Str("subordinate")];
      }
      enriched := enriched + [stationData];
      i := i + 1;
    }
    forall i | 0 <= i < |stations| ensures StationIdOf(enriched[i]) == StationIdOf(stations[i]) {
      assert "id" in enriched[i] <==> "id" in stations[i];
    }
    r := Success(enriched);
  }

  predicate HasType(station: Station, t: string)
  {
    "type" in station && station["type"] == Str(t)
  }

  /** Number of stations whose "type" is the given string: harmonic_count and subordinate_count. */
  function CountOfType(stations: seq<Station>, t: string): (c: nat)
    ensures c <= |stations|
    ensures c == 0 <==> forall k :: 0 <= k < |stations| ==> !HasType(stations[k], t)
    ensures c == |stations| <==> forall k :: 0 <= k < |stations| ==> HasType(stations[k], t)
  {
    if stations == [] then 0
    else
      var front := stations[..|stations| - 1];
      assert forall k :: 0 <= k < |front| ==> front[k] == stations[k];
      CountOfType(front, t) + (if HasType(stations[|stations| - 1], t) then 1 else 0)
  }

  /** Counting distributes over concatenation. */
  lemma {:induction false} CountOfTypeAppend(a: seq<Station>, b: seq<Station>, t: string)
    ensures CountOfType(a + b, t) == CountOfType(a, t) + CountOfType(b, t)
    decreases |b|
  {
    if b == [] {
      assert a + b == a;
    } else {
      assert (a + b)[..|a + b| - 1] == a + b[..|b| - 1];
      CountOfTypeAppend(a, b[..|b| - 1], t);
    }
  }

  /** One station counts one exactly when it has the type. */
  lemma CountOfTypeSingleton(station: Station, t: string)
    ensures CountOfType([station], t) == if HasType(station, t) then 1 else 0
  {
  }

  /**
    Together with CountOfType([], t) == 0 these equations determine the count:
    it is the number of stations whose "type" is t.
  */
  lemma {:induction false} CountOfTypeCons(station: Station, rest: seq<Station>, t: string)
    ensures CountOfType([station] + rest, t) == (if HasType(station, t) then 1 else 0) + CountOfType(rest, t)
  {
    CountOfTypeAppend([station], rest, t);
    CountOfTypeSingleton(station, t);
  }

  /** An example: two harmonic stations among three. */
  lemma CountOfTypeExample(h: Station, o: Station)
    requires HasType(h, "harmonic") && HasType(o, "subordinate")
    ensures CountOfType([h, o, h], "harmonic") == 2
    ensures CountOfType([h, o, h], "subordinate") == 1
  {
  }

  /** After classification the harmonic and subordinate counts add up to the number of stations. */
  lemma {:induction false} CountsAddUp(enriched: seq<Station>)
    requires forall k :: 0 <= k < |enriched| ==>
      HasType(enriched[k], "harmonic") || HasType(enriched[k], "subordinate")
    ensures CountOfType(enriched, "harmonic") + CountOfType(enriched, "subordinate") == |enriched|
  {
    if enriched != [] {
      CountsAddUp(enriched[..|enriched| - 1]);
    }
  }
}
