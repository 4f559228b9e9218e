/** `OlympicService`: the dataset snapshot, the loading flag and the error
    message, and the load and lookup operations that move them. */
module Service {
  import opened Wrappers
  import opened Models
  import opened HttpErrors
  import opened Lookup

  /** What the HTTP request for the data file ends with. */
  datatype HttpOutcome = Delivered(data: seq<Country>) | Failed(response: HttpErrorResponse)

  class OlympicService {
    /** The published snapshot: `None` until a load succeeds. */
    var olympics: Option<seq<Country>>
    var loading: bool
    var error: Option<string>
    /** How many loads have been started, so that the lookup's loads can be counted. */
    ghost var loadsStarted: nat

    /** A stored error message is always one that the classifier produced. */
    ghost predicate Valid()
      reads this
    {
      error.Some? ==> IsClassified(error.value)
    }

    constructor ()
      ensures Valid()
      ensures olympics == None && !loading && error == None && loadsStarted == 0
    {
      olympics := None;
      loading := false;
      error := None;
      loadsStarted := 0;
    }

    /** The part of `loadInitialData` that runs before the response is known:
        the loading flag is raised and nothing else changes. */
    method BeginLoad()
      requires Valid()
      modifies this
      ensures Valid()
      ensures loading
      ensures olympics == old(olympics) && error == old(error)
      ensures loadsStarted == old(loadsStarted) + 1
    {
      loading := true;
      loadsStarted := loadsStarted + 1;
    }

    /** The part of `loadInitialData` that runs when the response arrives: a
        delivered dataset becomes the snapshot and clears the error; a failure
        stores its message, keeps the snapshot, and is re-signalled with that
        message. Either way loading ends. */
    method ResolveLoad(outcome: HttpOutcome) returns (r: Result<seq<Country>, string>)
      requires Valid()
      modifies this
      ensures Valid()
      ensures !loading
      ensures loadsStarted == old(loadsStarted)
      ensures outcome.Delivered? ==>
                r == Ok(outcome.data) && olympics == Some(outcome.data) && error == None
      ensures outcome.Failed? ==>
                var msg := ErrorMessage(outcome.response);
                r == Err(msg) && error == Some(msg) && olympics == old(olympics)
    {
      match outcome
      case Delivered(data) =>
        olympics := Some(data);
        loading := false;
        error := None;
        r := Ok(data);
      case Failed(response) =>
        loading := false;
        var msg := ErrorMessage(response);
        error := Some(msg);
        r := Err(msg);
    }

    /** `loadInitialData`, with the fetch replaced by its outcome. */
    method LoadInitialData(outcome: HttpOutcome) returns (r: Result<seq<Country>, string>)
      requires Valid()
      modifies this
      ensures Valid()
      ensures !loading
      ensures loadsStarted == old(loadsStarted) + 1
      ensures outcome.Delivered? ==>
                r == Ok(outcome.data) && olympics == Some(outcome.data) && error == None
      ensures outcome.Failed? ==>
                var msg := ErrorMessage(outcome.response);
                r == Err(msg) && error == Some(msg) && olympics == old(olympics)
    {
      BeginLoad();
      r := ResolveLoad(outcome);
    }

    /** `getOlympics`: the current snapshot. */
    method GetOlympics() returns (r: Option<seq<Country>>)
      ensures r == olympics
    {
      r := olympics;
    }

    /** `isLoading`: the current loading flag. */
    method IsLoading() returns (r: bool)
      ensures r == loading
    {
      r := loading;
    }

    /** `getError`: the current error message. */
    method GetError() returns (r: Option<string>)
      ensures r == error
    {
      r := error;
    }

    /** `getCountryByName`. With a snapshot it starts no load and searches the
        snapshot. Without one it loads first (`outcome` is what that load's
        request ends with) and searches what was loaded; a failed load gives
        `None`, and the state is what the load left. */
    method GetCountryByName(countryName: string, outcome: HttpOutcome) returns (r: Option<Country>)
      requires Valid()
      modifies this
      ensures Valid()
      ensures old(olympics).Some? ==>
                r == FindByName(old(olympics).value, countryName) &&
                olympics == old(olympics) && loading == old(loading) && error == old(error) &&
                loadsStarted == old(loadsStarted)
      ensures old(olympics).None? ==>
                loadsStarted == old(loadsStarted) + 1 && !loading &&
                (outcome.Delivered? ==>
                   r == FindByName(outcome.data, countryName) &&
                   olympics == Some(outcome.data) && error == None) &&
                (outcome.Failed? ==>
                   r == None && olympics == None && error == Some(ErrorMessage(outcome.response)))
    {
      if olympics.Some? {
        r := FindByName(olympics.value, countryName);
      } else {
        var loaded := LoadInitialData(outcome);
        match loaded
        case Ok(_) =>
          r := FindByName(olympics.value, countryName);
        case Err(_) =>
          r := None;
      }
    }
  }

  /** A lookup before any data is loaded fails with the load and leaves the
      error for the views; a retry of the load succeeds and clears it. */
  method FailThenRetry(data: seq<Country>, failure: HttpErrorResponse)
  {
    var service := new OlympicService();
    var none := service.GetCountryByName("France", Failed(failure));
    assert none == None;
    var err := service.GetError();
    assert err == Some(ErrorMessage(failure));
    var snapshot := service.GetOlympics();
    assert snapshot == None;
    var loaded := service.LoadInitialData(Delivered(data));
    assert loaded == Ok(data);
    err := service.GetError();
    assert err == None;
    assert service.loadsStarted == 2;
  }

  /** Once a snapshot is held, lookups in any letter case or encoding find the
      same record and start no load, whatever a fetch would have returned. */
  method LookupsReuseSnapshot(france: Country, failure: HttpErrorResponse)
    requires france.country == "France"
  {
    var snapshot := [france];
    var service := new OlympicService();
    var loaded := service.LoadInitialData(Delivered(snapshot));
    assert service.olympics == Some(snapshot) && service.loadsStarted == 1;
    var encoded := service.GetCountryByName("Fr%61nce", Failed(failure));
    assert encoded == FindByName(snapshot, "Fr%61nce");
    var lower := service.GetCountryByName("france", Failed(failure));
    assert lower == FindByName(snapshot, "france");
    FranceAlone(france);
    assert encoded == Some(france) && lower == Some(france);
    assert service.loadsStarted == 1;
    var busy := service.IsLoading();
    assert !busy;
  }
}
