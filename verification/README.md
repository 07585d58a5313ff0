# minimed-connect-to-nightscout: the sync gate and start-up of run.js

This project models the logic of `run.js`, the entry point of a bridge that polls
the CareLink telemetry cloud for a pump/sensor snapshot, transforms it into
Nightscout entries (one `pump_status` record and a run of `sgv` sensor glucose
values), and uploads them to a Nightscout site. The model covers:

- **The incremental sgv filter** (`filterRecentSgvs`). Its only state is the
  high-water mark `lastSgvDate`, which starts at 0. A call passes every entry that is
  not an sgv, and every sgv whose date is strictly above the mark. It then raises the
  mark to the largest date among the sgvs it passed. Nightscout upserts by date, and
  CareLink gives trend data only for the newest sgv. The filter therefore keeps an
  already-sent sgv from being sent again, which would overwrite the stored copy and
  drop its trend. The filter is a pure step `Filter(state, entries)` (module
  `SgvFilter`) plus a method `FilterRecentSgvs` that follows the two passes of
  run.js.
- **The poll loop's decision** (module `SyncLoop`). A fetch error ends the process.
  Otherwise the filter runs, and an upload is attempted exactly when its output is
  non-empty. A run is a fold of the cycle over successive batches. No sgv passed in
  one cycle is passed again in a later cycle. Two sgvs with the same date can still
  both pass within one cycle.
- **`readEnv`** (module `Env`, over the JavaScript value semantics in `JsValues`).
  A setting is looked up under four names: `key`, its lower-case form, and both of
  those with the Azure prefix `CUSTOMCONNSTR_`. JavaScript's `||` chain picks the
  first non-empty value. If there is none, the chain yields its last operand, so an
  empty value under the fourth name comes out as `""` rather than the default.
- **Start-up** (module `Config`). It reads the configuration record, throws on a
  missing username before it checks the password, and builds the endpoint: `NS` if
  non-empty, else `https://` plus the host name, followed by `/api/v1/entries.json`.

Three details of run.js worth stating:
- The mark starts at 0, so an sgv dated at or before the epoch is never passed (`SyncLoop.FreshRunPassesOnlyAfterEpoch`).
- The code raises the mark over the sgvs it *kept*, not over all sgvs of the batch.
  `SgvFilter.MarkOverKeptIsMarkOverAll` proves that the two rules give the same mark.
- An sgv whose date does not exceed the mark is dropped, even when it is the newest
  reading of the batch.

## Model

| member | source | states |
|---|---|---|
| SgvFilter.Select | run.js:49-54 | every selected entry satisfies the rule "not an sgv, or dated strictly after the mark", and there are no more of them than input entries |
| SgvFilter.SelectMembers | run.js:50-53 | every selected entry comes from the input, and every input entry that satisfies the rule is selected |
| SgvFilter.SelectMultiset | run.js:49-54 | each entry the rule admits is selected as many times as it occurs in the input; every other entry occurs zero times |
| SgvFilter.RaiseMark | run.js:55-58 | the `Math.max` fold is the maximum of the starting mark and the sgv dates: it is at least the mark, bounds every sgv date, and equals the mark or one of those dates |
| SgvFilter.Filter | run.js:45-62 | one call: every passed sgv is newer than the old mark; every input sgv is at most the new mark; the output is an order-preserving subsequence of the input; the mark never decreases and equals the maximum over all input sgvs |
| SgvFilter.FilterRecentSgvs | run.js:48-61 | the two-loop procedure of run.js computes exactly the pure step `Filter` |
| SgvFilter.SelectIsSubsequence | run.js:49-54 | the filter output is the input with some entries deleted and the rest in their original order |
| SgvFilter.SelectKeepsNonSgvs | run.js:50-53 | the non-sgv entries of the output are exactly those of the input, in the same order |
| SgvFilter.MarkOverKeptIsMarkOverAll | run.js:51-58 | raising the mark over the kept sgvs gives the same mark as raising it over every sgv of the batch |
| SgvFilter.SelectWhenNothingNew | run.js:51-53 | when no sgv is above the mark, exactly the non-sgv entries pass |
| SgvFilter.EmptyOutputIffNothingNew | run.js:50-54 | the filter passes nothing exactly when the batch has no non-sgv entry and no sgv above the mark |
| SgvFilter.SelectAfterRaiseIsNonSgvs | run.js:51-58 | selecting from a batch against the mark already raised over that batch passes exactly its non-sgv entries |
| SgvFilter.RefeedPassesOnlyNonSgvs | run.js:51-58 | feeding the same batch again passes only its non-sgv entries |
| SgvFilter.RefeedKeepsMark | run.js:51-58 | feeding the same batch again leaves the mark unchanged |
| SyncLoop.Cycle | run.js:64-88 | a fetch error ends the run with that error; otherwise the next state is the one the filter leaves, the mark does not decrease, an attempted upload is exactly the filter output and carries every non-sgv entry in order, and no upload is attempted exactly when the batch has no non-sgv entry and no sgv above the mark; an attempted upload is non-empty, newer than the mark, and a subsequence of the batch |
| SyncLoop.Outputs | run.js:45-62 | successive calls of the filter closure, which carries its mark from call to call, return one output per batch, and every sgv passed in any call is newer than the mark the run started from |
| SyncLoop.FinalState | run.js:46-58 | over any sequence of calls the mark never decreases |
| SyncLoop.NoSgvPassedTwice | run.js:71-74 | across a run, each sgv passed in a later cycle is strictly newer than every sgv passed in an earlier cycle, so no reading passed in one cycle is passed again in a later cycle |
| SyncLoop.Uploads | run.js:64-89 | a run of the loop, each cycle rescheduled through `setTimeout`, uploads in each cycle exactly that cycle's filter output when it is non-empty, and nothing otherwise |
| SyncLoop.NoSgvUploadedTwice | run.js:64-89 | in a run of the loop, every sgv of a later upload is strictly newer than every sgv of an earlier upload |
| SyncLoop.FreshRunPassesOnlyAfterEpoch | run.js:46-58 | a run that starts from the initial mark 0 passes only sgvs dated after 0 |
| JsValues.ToLowerCase | run.js:11 | lower-casing keeps the length, leaves no upper-case ASCII letter, keeps every other character and maps each upper-case letter to its lower-case partner |
| Env.ReadEnv | run.js:9-16 | the result is the value of the first of the four candidate names whose value is non-empty; with none, it is `""` if the fourth name is set and the default otherwise |
| Env.ReadEnvTruthy | run.js:10-15 | the setting is truthy exactly when a candidate name holds a non-empty value, or when the fourth name is unset and the default is truthy |
| Env.ReadEnvEmpty | run.js:10-15 | an empty result comes only from the fourth candidate name being set to `""` or from an empty default |
| Config.LoadConfig | run.js:18-28 | with none of its four names set, the interval is `"60000"`, the sgv limit is `"24"` and the retry duration is the client library's default; the base address is the `NS` setting; logging is verbose exactly when no name for CARELINK_QUIET holds a non-empty value |
| Config.Validate | run.js:30-34 | the username error is raised exactly when the username is missing or empty, whatever the password; the password error only when the username is present |
| Config.Endpoint | run.js:41 | the endpoint ends with `/api/v1/entries.json`; it starts with `NS` when that is non-empty, and with `https://` otherwise |
| Config.EndpointSite | run.js:41 | removing the entries path from the endpoint gives back `NS`, or `https://` followed by the host text |
| Config.EndpointFromEnvironment | run.js:21-41 | with the base address read through `readEnv('NS')`, the endpoint starts with the first non-empty value among the four names for `NS`, or with `https://` when none has one |
| Config.EndpointWithoutHost | run.js:41 | with neither `NS` nor a host name set, the endpoint is `https://undefined/api/v1/entries.json` |
| Config.StartFailureMessage | run.js:30-34 | start-up throws "Missing CareLink username" when no name for CARELINK_USERNAME holds a non-empty value, and "Missing CareLink password" otherwise |
| Config.Start | run.js:18-41 | start-up fails with the username error exactly when no name for CARELINK_USERNAME holds a non-empty value; it fails with the password error exactly when one does and no name for CARELINK_PASSWORD does; on success both credentials are non-empty, the endpoint starts with the first non-empty value among the four names for `NS` (or with `https://` when there is none) and ends with the entries path |

## Left out

- The transform step: `transform.js` is not part of this model. An `Entry` carries only what the filter reads: the `sgv`/`pump_status` discriminator, the date and the glucose value. Time-offset reconciliation, trend attachment and the pump status fields are not modelled.
- Fetching from CareLink, uploading to Nightscout, the `setTimeout` cadence and logging of upload errors (run.js:36-40, 64-89) are I/O. `SyncLoop.Cycle` takes the fetch outcome as a parameter and returns the batch to upload. The upload's success cannot change the state, so it is not a parameter.
- `parseInt` of the interval, sgv limit and retry duration (run.js:24-26) is not modelled. The settings are kept as read. The numeric defaults are written as decimal text. `parseInt` converts a number argument to text first, so this does not change what is parsed.
- The client library's default retry duration (run.js:26) comes from code outside this model. It is a parameter of `Config.LoadConfig`.
- `logger.setVerbose` (run.js:43) is a foreign call. Only the `verbose` flag it receives is modelled.
- Env.ReadEnv: treats environment variable names as case-sensitive, as on Linux and macOS. On Windows, where Node's `process.env` ignores case, the four candidate names can denote the same variable, and the result can differ from the model's.
- JsValues.ToLowerCase: lower-cases ASCII letters only, where JavaScript's `toLowerCase` also maps non-ASCII letters. Environment variable names are ASCII in practice.
- Dates are unbounded integers. JavaScript numbers are doubles, which hold epoch milliseconds exactly, so nothing is lost.
- transform.js is not part of this model, and every entry is assumed to carry a numeric date. In run.js an sgv whose date is missing or NaN fails `entry['date'] > lastSgvDate` (run.js:51), so it is dropped and never reaches the mark update.
