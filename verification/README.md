# go-unityscopes adapter core, modelled in Dafny

go-unityscopes lets a Go program act as a scope (a search plugin) for the
native Unity scopes runtime. The runtime calls into Go to start a Search,
Preview, Activate or PerformAction. It hands over native objects and a
cancellation channel. It receives results, replies and error messages back.
This project models the decision logic of that bridge as pure Dafny
functions and proves what the Go code promises about it:

- **`checkError` and dispatch** (`UnityScope`):
  - Native error strings become Go errors.
  - After a Search or Preview handler returns, the bridge adds exactly one closing call after the handler's own calls: `Error(err)` if the handler failed, `Finished()` otherwise. Nothing checks whether the handler already closed the reply.
  - Activate and PerformAction reach a handler only if the scope has that optional capability. The native error slot is filled iff the handler or the response update fails.
  - `setScopeBase` passes nil exactly for a null pointer.
  - `Run` derives the scope id from the `--scope` path, or rejects the path before the runtime starts.
- **`path.Base` and `strings.HasSuffix`** (`GoPath`): the two library calls `Run` depends on. Both are in the one module, `strings.HasSuffix` included.
- **The cancellation-channel registry** (`CancelRegistry`): a set of live channels. A made channel is always new, and release removes it.
- **The rating filter** (`RatingFilter`): a filter state holding at most one selected option id under the filter's id, plus its serialization.
- **Result attributes** (`ScopeResult`):
  - The native result is a map from attribute name to JSON text.
  - `Set` encodes, `Get` decodes, and the fixed-key string accessors default to "".
  - Finalizing destroys the native object at most once.
- **The JSON codec** (`JsonValue`, `JsonEncode`, `JsonDecode`, `JsonRoundTrip`): the parts of Go's `encoding/json` that `Get` and `Set` rely on.
  - `Value` is the dynamic value (`interface{}`), restricted to finite values of the shapes `json.Unmarshal` produces plus an `Unsupported` marker. Cyclic maps or slices and nil slices or maps are outside it. Objects are kept in the ascending key order Go uses when it writes a map.
  - The encoder escapes strings HTML-safely and writes `\u00XX` in lower case. It follows `encoding/json` up to Go 1.21, which writes backspace and form feed as `\u0008` and `\u000c`; Go 1.22 and later write `\b` and `\f`.
  - The decoder skips whitespace and reads every escape, including surrogate pairs. A lone surrogate becomes U+FFFD. A repeated key keeps its last value, and text after the value is an error.
  - `MarshalUnmarshal` proves `json.Unmarshal(json.Marshal(v)) == v` for strings of Unicode scalar values. A Go string may hold invalid UTF-8, which `json.Marshal` replaces with U+FFFD, so in Go the round trip holds only for valid UTF-8.

The native runtime, handlers, the response updater and the native attribute
setter's outcome are parameters of the functions that use them.

## Model

| member | source | states |
|---|---|---|
| `UnityScope.CheckError` | unityscope.go:20-26 | a null string gives no error; any other string gives an error whose message is exactly that string |
| `UnityScope.CheckErrorMessage` | unityscope.go:20-26 | reading the message of the error back gives the original nullable string: the conversion loses nothing |
| `UnityScope.Closing` | unityscope.go:66-70 | the call the goroutine makes after the handler returns is a closing call; it is the error signal, carrying the error's message, iff the handler returned an error, and `Finished` otherwise |
| `UnityScope.CompleteTask` | unityscope.go:64-71 | the reply sees the handler's own calls unchanged, followed by exactly one more call, an error signal iff the handler failed and `Finished` iff it did not |
| `UnityScope.OneMoreTerminal` | unityscope.go:64-71 | whatever the handler did, the finished reply holds exactly one more closing call than the handler made itself |
| `UnityScope.SecondClosingCall` | unityscope.go:64-71 | a handler that called `Finished()` itself leaves a reply that receives two closing calls |
| `UnityScope.ExactlyOneTerminal` | unityscope.go:64-71 | if the handler left the reply open, the finished reply holds exactly one closing call, it is the last call, and it contains an error signal iff the handler failed and a `Finished` iff it did not — never both |
| `UnityScope.CallScopeSearch` | unityscope.go:59-72 | the search reply ends with the handler's calls and one closing call chosen by the handler's error |
| `UnityScope.CallScopePreview` | unityscope.go:75-88 | the preview reply follows the same protocol with the preview handler |
| `UnityScope.Respond` | unityscope.go:96-102 | `update` is called, on the returned response whether nil or not, iff the handler succeeded; the error slot is written iff the handler or the update failed, with the handler's message if it failed and the update's otherwise |
| `UnityScope.NilResponseUpdated` | unityscope.go:96-99 | a nil response returned with a nil error is still passed to `update`, and the error slot holds what that call reports |
| `UnityScope.CallScopeActivate` | unityscope.go:91-106 | a scope without the `Activator` capability runs nothing, writes no response and leaves the error slot untouched; otherwise the activate handler's outcome is handled as above |
| `UnityScope.CallScopePerformAction` | unityscope.go:109-124 | the same rules gated on `PerformActioner`, with the widget and action ids handed to the handler as received |
| `UnityScope.ActivateOutcome` | unityscope.go:92-105 | the error slot is written iff the scope can activate and its handler or the update failed; a response is written iff the scope can activate and its handler succeeded; a handler runs iff the capability is present |
| `UnityScope.SetScopeBase` | unityscope.go:138-144 | `SetScopeBase` receives nil iff the native pointer is null, and otherwise a wrapper around that very pointer |
| `UnityScope.ScopeId` | unityscope.go:186-193 | an empty path fails with "Scope configuration file not set on command line"; a base name without the `.ini` suffix fails with "Scope configuration file does not end in '.ini'"; it succeeds exactly otherwise, with an id free of slashes such that id + ".ini" is the path's base name |
| `UnityScope.ScopeIdOfPath` | unityscope.go:189-193 | every path of the form directory, then `<id>.ini`, then trailing slashes, yields the scope id `<id>` |
| `UnityScope.Run` | unityscope.go:182-198 | a rejected path returns its usage error; an accepted one returns exactly the error the native runtime reports, converted by `checkError`, for the derived id and both configuration paths |
| `UnityScope.RunRejectsBeforeRuntime` | unityscope.go:186-192 | for an empty path or one whose base lacks `.ini`, `Run` returns a usage error whatever the runtime would do, so the runtime plays no part |
| `GoPath.Base` | unityscope.go:189 | `path.Base`: "." for the empty path, "/" for a path of slashes only, and otherwise a non-empty element without slashes |
| `GoPath.HasSuffixIsConcat` | unityscope.go:190 | `strings.HasSuffix(s, suffix)` holds iff `s` is some string followed by `suffix` |
| `GoPath.BaseOfParts` | unityscope.go:189 | a directory part ending in a slash (or empty), an element, then any trailing slashes: the base is that element |
| `GoPath.BaseParts` | unityscope.go:189 | conversely, every path containing a non-slash splits into such a directory part, its base and trailing slashes |
| `CancelRegistry.MakeCancelChannel` | unityscope.go:206-212 | the channel made was not live before and is live afterwards, together with every channel live before; every live channel remains one that has been made |
| `CancelRegistry.ReleaseCancelChannel` | unityscope.go:220-224 | the channel is not live afterwards, no other channel changes, and releasing a channel that is not live leaves the registry as it was |
| `CancelRegistry.EmptyValid` | unityscope.go:201 | the registry at program start, an empty map, has every live channel among those made |
| `CancelRegistry.Apply` | unityscope.go:200-224 | any sequence of make and release requests keeps every live channel among those made, and never lowers the count of channels made |
| `CancelRegistry.MadeChannelsAreFresh` | unityscope.go:206-212 | over any sequence of requests the channels made are all new and pairwise distinct, whatever was released in between |
| `CancelRegistry.ReleasedStaysReleased` | unityscope.go:206-224 | a channel that was made and released is never live again, whatever requests follow |
| `RatingFilter.NewRatingFilter` | rating_filter.go:16-27 | the new filter has the given id and label, type "rating", default display hints, and no options or icons |
| `RatingFilter.ActiveRating` | rating_filter.go:30-33 | returns (s, true) exactly when the state holds the string s under the filter's id, and ("", false) when the key is absent or holds a non-string |
| `RatingFilter.UpdateState` | rating_filter.go:36-49 | requires a valid option id; after activating, the option is the active rating; deactivating the selected option removes the key; deactivating anything else changes nothing; no other key is added, removed or changed |
| `RatingFilter.UpdateKeepsStateOk` | rating_filter.go:36-49 | if the filter's entry is absent or a valid option id, it still is after any update: a single selection is kept |
| `RatingFilter.ActiveAfterUpdate` | rating_filter.go:41-48 | the active rating after an update is the option if activated, none if the selected option was deactivated, and the previous active rating otherwise |
| `RatingFilter.UpdateIdempotent` | rating_filter.go:36-49 | applying the same update twice gives the same state as applying it once |
| `RatingFilter.SerializeFilter` | rating_filter.go:51-56 | the serialized filter has the base fields' keys plus "label" and "options", holding the filter's label and option list, and every other base field unchanged |
| `JsonEncode.Marshal` | result.go:47-50 | encoding succeeds exactly for values holding no unsupported Go type, with the encoded text; otherwise it is a marshal error |
| `JsonDecode.Unmarshal` | result.go:35-38 | a successful decode yields a value in canonical form with nothing unencodable in it; every failure is an unmarshal error |
| `JsonValue.Canonicalize` | result.go:35-36 | the members of a decoded object end up in ascending key order; each key maps to the last value given for it in the text, and every member comes from the text |
| `JsonRoundTrip.ValueRoundTrip` | result.go:33-51 | the decoder reads back every canonical, encodable value from the text the encoder wrote for it, and stops exactly where that text ends, whatever separator or closing bracket follows |
| `JsonValue.Insert` | result.go:35-36 | storing a member in a key-ordered member list keeps it key-ordered; the key then maps to the new value, every other key maps to what it did, and no member is invented |
| `JsonRoundTrip.MarshalUnmarshal` | result.go:33-51 | every canonical encodable value encodes successfully, and decoding the text gives the same value back |
| `JsonRoundTrip.UnmarshalMarshal` | result.go:33-51 | whatever decodes successfully can be encoded again, and that text decodes to the same value |
| `ScopeResult.Get` | result.go:27-40 | a missing attribute gives the native error; text that does not decode gives an unmarshal error; otherwise the decoded value, which is canonical and encodable |
| `ScopeResult.Set` | result.go:46-55 | an unencodable value gives a marshal error and leaves the attributes alone; otherwise the encoded text is stored under the name, unless the native setter reports an error, which is returned |
| `ScopeResult.GetAfterSet` | result.go:27-55 | setting a canonical encodable value succeeds, and getting the same attribute returns that value |
| `ScopeResult.SetLeavesOthers` | result.go:46-55 | a failed set changes no attribute, and a successful one changes no other attribute, as seen through `Get` |
| `ScopeResult.GetString` | result.go:87-95 | the attribute's string if it is set and decodes to a JSON string, and "" when it is missing, undecodable or not a string |
| `ScopeResult.GetStringAfterSet` | result.go:87-95 | a string stored with `Set` is read back by `getString` unchanged |
| `ScopeResult.SetURI` | result.go:68-70 | stores the quoted URI under "uri" iff the native setter succeeds, and changes nothing otherwise |
| `ScopeResult.SetTitle` | result.go:73-75 | stores the quoted title under "title" iff the native setter succeeds, and changes nothing otherwise |
| `ScopeResult.SetArt` | result.go:78-80 | stores the quoted art URI under "art" iff the native setter succeeds, and changes nothing otherwise |
| `ScopeResult.SetDndURI` | result.go:83-85 | stores the quoted URI under "dnd_uri" iff the native setter succeeds, and changes nothing otherwise |
| `ScopeResult.URI` | result.go:98-100 | the string held under "uri", or "" |
| `ScopeResult.Title` | result.go:103-105 | the string held under "title", or "" |
| `ScopeResult.Art` | result.go:108-110 | the string held under "art", or "" |
| `ScopeResult.DndURI` | result.go:114-116 | the string held under "dnd_uri", or "" |
| `ScopeResult.GetStringOtherKey` | result.go:46-55 | storing a string under one attribute leaves what `getString` reads under any other attribute unchanged |
| `ScopeResult.UriRoundTrip` | result.go:67-116 | the URI stored by `SetURI` is what `URI` returns, and the title, art and drag-and-drop URI read as before |
| `ScopeResult.TitleRoundTrip` | result.go:67-116 | the title stored by `SetTitle` is what `Title` returns, and the other three readers return what they did before |
| `ScopeResult.ArtRoundTrip` | result.go:67-116 | the art URI stored by `SetArt` is what `Art` returns, and the other three readers return what they did before |
| `ScopeResult.DndUriRoundTrip` | result.go:67-116 | the URI stored by `SetDndURI` is what `DndURI` returns, and the other three readers return what they did before |
| `ScopeResult.FinalizeResult` | result.go:17-22 | the handle is nil afterwards, and the native object destroyed is exactly the one the handle held, if any |
| `ScopeResult.FinalizeCategorisedResult` | result.go:135-137 | finalizing a categorised result finalizes its embedded result in the same way |
| `ScopeResult.DestroyedAtMostOnce` | result.go:17-22 | finalizing a result one or more times destroys its native object exactly once if it held one, and destroys nothing otherwise |

## Left out

- The C++ glue in shim.cpp and the native runtime. The runtime, the native attribute setter's outcome and `ActivationResponse.update` are parameters.
- cgo plumbing: `C.free`, `C.CString`, `C.GoString`, pointer casts, and when `runtime.SetFinalizer` runs a finalizer. Only the at-most-once destroy bookkeeping is modelled.
- Goroutines, `sync.Mutex` and `sendCancelChannel`. The model is sequential. The send at unityscope.go:216 is a plain blocking send on a one-slot channel and is not checked against the registry, so a send after release is not a no-op, and the model claims nothing about it.
- Handler panics. The goroutines at unityscope.go:64-71 and 80-87 do not recover panics, so the model's handlers always return.
- `ScopeBase` directory accessors and `Settings` (unityscope.go:147-175). They are thin wrappers over native calls and `json.Unmarshal`.
- Command-line flag parsing (unityscope.go:126-129, 183-185). The two configuration paths are plain arguments.
- `NewCategorisedResult`, `SetInterceptActivation` and the category finalizer. They only call native constructors and setters.
- The `isValidOption` check and the shared `filterBase.serializeFilter` are not part of this model. They are parameters of `UpdateState` and `SerializeFilter`.
- metadata_test.go: it tests metadata types whose implementation is not part of this model.
- `JsonDecode.Unmarshal`: Go decodes every JSON number into a float64. The model holds integers exactly and rejects numbers with a fraction or exponent, so it does not cover float64 rounding of large integers or non-integral numbers.
- `JsonEncode.Marshal`: it writes integers in plain decimal. Go writes large float64 values with an exponent, and it rejects NaN and infinities, which the model's integers cannot express.
- `JsonEncode.Marshal`: `Value` is finite and holds only the shapes `json.Unmarshal` produces, plus `Unsupported`. A map or slice that contains itself, which Go's `json.Marshal` rejects with a cycle error, cannot be expressed. Neither can a nil slice or map, which Go writes as `null` and reads back as an untyped nil, so it does not round-trip.
- `JsonDecode.Unmarshal`: Go's depth limit on nested values and its error message wording are not modelled. Errors carry the model's own messages.
- `ScopeResult.Set`: a native setter that reports an error is assumed to leave the attributes unchanged. What the native library does in that case is not part of this model.
- `ScopeResult.Get`: the native library's message for a missing attribute is a parameter, `missing`.
- `JsonRoundTrip.MarshalUnmarshal`: model strings are sequences of Unicode scalar values. A Go string is arbitrary bytes, and `json.Marshal` replaces invalid UTF-8 with U+FFFD, so in Go the round trip holds only for strings that are valid UTF-8.
- `ScopeResult.GetStringAfterSet`: for the same reason, in Go a stored string reads back unchanged only if it is valid UTF-8. `SetTitle("\xff")` followed by `Title()` gives `"\uFFFD"`. The model cannot express that input. The same applies to `UriRoundTrip`, `TitleRoundTrip`, `ArtRoundTrip` and `DndUriRoundTrip`.
- `RatingFilter.UpdateState`: in Go a `FilterState` may be a nil map, and activating an option on it panics at the assignment on rating_filter.go:46. The model's state is a Dafny map and is never nil. Deactivating on a nil state changes nothing in Go and in the model.
- `UnityScope.ActivationResponse`: only the status and the scope data that `update` receives are kept.
- `UnityScope.ExactlyOneTerminal`: holds only for a handler that left its reply open. A handler that called `Finished()` or `Error()` itself gets a second closing call from the bridge, because unityscope.go:64-71 and 80-87 have no closed-once guard; `SecondClosingCall` shows it. What the native reply does with the second call is not part of this model.
- `UnityScope.Respond`: a nil response with a nil error is passed to `update` as `None`. `update` is a parameter, so the model does not say whether that call panics or what it writes.
