# OlympicService, modelled in Dafny

The Telesport dashboard loads the Olympic dataset (a list of countries, each
with its participations in the Games) through one Angular service,
`OlympicService`. The service keeps three pieces of state: the dataset
snapshot, a loading flag and an error message. `loadInitialData` moves them
through fixed transitions: it starts a load, and the load then succeeds or
fails. `getErrorMessage` turns a failed HTTP response into a display string
tagged "Client-side" or "Server-side". `getCountryByName` finds the first
country whose lower-cased name equals the percent-decoded, lower-cased query,
and loads the data first when no snapshot is held yet.

The model:

- `wrappers.dfy` holds `Option` and `Result`.
- `models.dfy` holds the `Country` and `Participation` records as datatypes (src/app/core/models/Country.ts:6-17, src/app/core/models/Participation.ts:4-29). Their TypeScript `number` fields become `int`, so fractional values are not modelled.
- `text.dfy` models `toLowerCase`, for ASCII letters only.
- `uri.dfy` models `decodeURIComponent` for escapes that denote ASCII characters. A malformed escape is a `None` result, where the TypeScript service's call throws `URIError`.
- `decimal.dfy` models how a template literal renders the integer HTTP status.
- `errors.dfy` models `getErrorMessage`.
- `lookup.dfy` models the matching step of `getCountryByName` as pure functions over `seq<Country>`.
- `service.dfy` models the service as a class with the three fields.

The HTTP request is not modelled. Each operation that fetches takes the request's outcome as a parameter (`HttpOutcome`): either the delivered array or an `HttpErrorResponse`. That response keeps only the fields the message uses: the status, the message, and the `error` payload (a browser `ErrorEvent`, or anything else). `loadInitialData` is split the way it runs:

- `BeginLoad` raises the loading flag synchronously, before any response is known.
- `ResolveLoad` is the `tap`/`catchError` part, applied to the outcome.
- `LoadInitialData` runs one, then the other.

A ghost counter `loadsStarted` shows how many loads a lookup starts: none when a snapshot is held, exactly one when none is.

`Valid()` is the object invariant: a stored error message always carries one of the two tags.

Two client methods show what callers can prove from the contracts alone. `FailThenRetry` shows that a lookup with a failed load gives absent, that the error is published, and that a later load succeeds and clears the error. `LookupsReuseSnapshot` shows that "Fr%61nce" and "france" find the "France" record without loading again.

A failed load leaves the snapshot as it was (src/app/core/services/olympic.service.ts:35-41). A snapshot from an earlier successful load therefore survives a later failure. It is not reset to absent, and the model follows the code here.

## Model

| member | source | states |
|---|---|---|
| `Text.ToLower` | src/app/core/services/olympic.service.ts:76-78 | The result has the input's length, and each character is that input character lower-cased. |
| `Text.ToLowerIdempotent` | src/app/core/services/olympic.service.ts:76-78 | Lower-casing an already lower-cased string changes nothing. |
| `Uri.Decode` | src/app/core/services/olympic.service.ts:76 | A successful decoding is never longer than the query. |
| `Uri.DecodeSucceedsIff` | src/app/core/services/olympic.service.ts:76 | Decoding fails exactly when some `%` is not followed by two hex digits that denote a character the model decodes. |
| `Uri.DecodePlain` | src/app/core/services/olympic.service.ts:76 | A query without `%` decodes to itself. |
| `Uri.DecodeEscapeAll` | src/app/core/services/olympic.service.ts:76 | Decoding undoes percent-escaping, for every ASCII string. |
| `Uri.DecodeIgnoresCase` | src/app/core/services/olympic.service.ts:76 | For two queries equal ignoring case, both decodings fail, or both succeed with results equal ignoring case. This includes hex digits written in either case. |
| `Lookup.DecodeFrance` | src/app/core/services/olympic.service.ts:76 | "Fr%61nce" decodes to "France". |
| `Decimal.NatToDecimal` | src/app/core/services/olympic.service.ts:115 | The rendering of a status is a non-empty string of digits, with a leading zero only for 0. |
| `Decimal.DecimalRoundTrip` | src/app/core/services/olympic.service.ts:115 | Reading the rendered digits back gives the number. |
| `Decimal.IntToString` | src/app/core/services/olympic.service.ts:115 | The rendering is non-empty digits and minus signs, and it starts with `-` exactly for a negative number. |
| `Decimal.IntToStringInjective` | src/app/core/services/olympic.service.ts:115 | Distinct statuses render differently. |
| `HttpErrors.ErrorMessage` | src/app/core/services/olympic.service.ts:109-117 | The message starts with "Client-side error: " exactly when the payload is an `ErrorEvent`, and otherwise with "Server-side error: ". A client-side message continues with the event's message. A server-side one continues with status, " - " and the response's message. |
| `HttpErrors.SplitAtSeparator` | src/app/core/services/olympic.service.ts:115 | A string built as status + " - " + message splits back into its two parts in only one way. |
| `HttpErrors.ErrorMessageInjective` | src/app/core/services/olympic.service.ts:109-117 | Two responses with the same message have the same payload. When server-side, they also have the same status and response message. |
| `Lookup.FindFirst` | src/app/core/services/olympic.service.ts:77-79 | The result is absent exactly when no lower-cased name equals the key. Otherwise it is the country at the first index, in array order, whose name matches. |
| `Lookup.FindByName` | src/app/core/services/olympic.service.ts:71-82 | A query that cannot be decoded gives absent. A found country is in the data, and its name equals the decoded query ignoring case. It is the first match in array order: every country whose name matches sits at or after an occurrence of the result. Absent after a successful decoding means no name matches. |
| `Lookup.FindByNameFirst` | src/app/core/services/olympic.service.ts:76-81 | A found country sits at an index whose name equals the decoded query ignoring case, and no earlier name does. |
| `Lookup.FindByNameIgnoresCase` | src/app/core/services/olympic.service.ts:76-78 | Queries that differ only in letter case find the same country. |
| `Lookup.FindByNamePlain` | src/app/core/services/olympic.service.ts:76-81 | A query without `%` finds exactly the first country whose name equals it ignoring case. |
| `Lookup.FranceExample` | src/app/core/services/olympic.service.ts:76-81 | "France", "france" and "Fr%61nce" all find the record named "France". |
| `Lookup.FranceAnySnapshot` | src/app/core/services/olympic.service.ts:76-81 | On every snapshot, "France", "france" and "Fr%61nce" give the same result. |
| `Service.OlympicService.constructor` | src/app/core/services/olympic.service.ts:14-20 | A new service holds no snapshot, is not loading and holds no error. |
| `Service.OlympicService.BeginLoad` | src/app/core/services/olympic.service.ts:27 | Starting a load raises the loading flag before the outcome is known. Snapshot and error are unchanged. |
| `Service.OlympicService.ResolveLoad` | src/app/core/services/olympic.service.ts:29-42 | On delivery, the snapshot becomes exactly the delivered array, the error is cleared, and the array is the result. On failure, the error becomes `ErrorMessage(response)`, the snapshot is unchanged, and the call fails with that same message. Loading ends either way, and the invariant is kept. |
| `Service.OlympicService.LoadInitialData` | src/app/core/services/olympic.service.ts:26-43 | One load is started and then resolved, with the transitions of `ResolveLoad`. |
| `Service.OlympicService.GetOlympics` | src/app/core/services/olympic.service.ts:49-51 | Returns the current snapshot and changes nothing. |
| `Service.OlympicService.IsLoading` | src/app/core/services/olympic.service.ts:93-95 | Returns the current loading flag and changes nothing. |
| `Service.OlympicService.GetError` | src/app/core/services/olympic.service.ts:101-103 | Returns the current error message and changes nothing. |
| `Service.OlympicService.GetCountryByName` | src/app/core/services/olympic.service.ts:61-87 | With a snapshot held: no load starts, all state is unchanged, and the result is `FindByName` over the snapshot. Without one: exactly one load starts and ends. On delivery the result is `FindByName` over the delivered array. On failure the result is absent, the snapshot stays absent and the error is stored. The result is never an error. |

## Left out

- The HTTP client, the data file's URL and `console.error` (src/app/core/services/olympic.service.ts:11, 29, 39) are I/O and logging. The fetch is the `HttpOutcome` parameter.
- RxJS semantics are not modelled: replaying the latest value to new subscribers, and emitting again whenever a value is replaced. One consequence: when a lookup starts its own load, `olympics$.next(data)` (src/app/core/services/olympic.service.ts:31) re-runs the outer `switchMap` on the new snapshot, which drops the inner load stream. The lookup's result therefore comes from that re-run, emitted while loading is still true and before the error is cleared (lines 32-33). The model returns it after the load has finished.
- The observable that `loadInitialData` returns is cold: the request is sent only when someone subscribes, and loading stays raised until the response arrives. The model splits the load into `BeginLoad` and `ResolveLoad` instead. It does not model a response that never arrives.
- Two loads in flight at once are not modelled. For example, two lookups could both start a load because neither has a snapshot yet. Every operation of the model runs to completion before the next starts.
- Observers of the three subjects see intermediate states while `ResolveLoad` updates the fields one by one. The model states only the state after the call.
- A response body that is not an array (JSON `null`, say) is not modelled. The snapshot is typed `seq<Country>`.
- Uri.Decode: an escape of a byte 0x80 or above is a failure. The real `decodeURIComponent` decodes a valid UTF-8 sequence of such escapes into one non-ASCII character. Decoding it would need a model of UTF-8 and of UTF-16 strings.
- Text.ToLower: only A-Z are lower-cased. The full Unicode case mapping of `toLowerCase` is a library table not modelled here.
- Decimal.IntToString: correct for integers of magnitude at most 2^53 only. Beyond that JavaScript prints the shortest digits that read back to the same number, padded with zeros (`${2**60}` is "1152921504606847000"), and from 10^21 on it uses exponent form. It also writes `-0` as "0" and renders fractional numbers. None of this is modelled. HTTP statuses (0-999) are not affected.
- Participation counts are plain numbers in the TypeScript records, with no check that they are non-negative. The model adds no such check.
- The per-country totals (medals, athletes, number of Games) and the chart series are not modelled. They are computed in view code that is not part of this model, and no modelled file contains them.
- The Angular module wiring, the home and detail pages, the stat and page-title components, and the chart model interfaces are not modelled. They hold no behaviour of the service.
