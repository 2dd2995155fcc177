/** A search result as the Go side sees it: a handle on a native result
    object whose attributes are stored as JSON text. `Get` and `Set` convert
    between that text and dynamic values with the codec; the fixed-key
    accessors read and write the standard string attributes. */
module ScopeResult {
  import opened Outcomes
  import opened JsonValue
  import opened JsonEncode
  import opened JsonDecode
  import opened JsonRoundTrip
  import opened UnityScope

  /** The native result's attributes: name to JSON text. */
  type Attributes = map<string, string>

  /** `Get`: the native library's error for an attribute that is not set
      (its text is `missing`), the decoder's error for text that is not
      JSON, or the decoded value. */
  function Get(attrs: Attributes, attr: string, missing: string): (r: Result<Value>)
    ensures attr !in attrs ==> r == Failure(NativeError(missing))
    ensures attr in attrs && Unmarshal(attrs[attr]).Failure? ==> r.Failure? && r.error.UnmarshalError?
    ensures attr in attrs && Unmarshal(attrs[attr]).Success? ==> r == Unmarshal(attrs[attr])
    ensures r.Success? ==> attr in attrs && Decoded(r.value)
  {
    if attr !in attrs then Failure(NativeError(missing))
    else
      var value :- Unmarshal(attrs[attr]);
      Success(value)
  }

  /** `Set`: a value the encoder rejects fails before the native object is
      touched; otherwise the encoded text goes to the native setter, whose
      error string (if any) is `nativeError`. A setter that fails is taken
      to leave the attributes as they were. */
  function Set(attrs: Attributes, attr: string, value: Value, nativeError: Option<string>): (r: (Attributes, Option<Error>))
    ensures !Encodable(value) ==> r.0 == attrs && r.1.Some? && r.1.value.MarshalError?
    ensures Encodable(value) && nativeError.None? ==> r.1.None? && r.0 == attrs[attr := Encode(value)]
    ensures Encodable(value) && nativeError.Some? ==> r.0 == attrs && r.1 == Some(NativeError(nativeError.value))
  {
    match Marshal(value)
    case Failure(e) => (attrs, Some(e))
    case Success(text) =>
      match CheckError(nativeError)
      case Some(e) => (attrs, Some(e))
      case None => (attrs[attr := text], None)
  }

  /** Storing a value and reading it back gives the value. */
  lemma GetAfterSet(attrs: Attributes, attr: string, value: Value, missing: string)
    requires WellFormed(value) && Encodable(value)
    ensures Set(attrs, attr, value, None).1.None?
    ensures Get(Set(attrs, attr, value, None).0, attr, missing) == Success(value)
  {
    MarshalUnmarshal(value);
  }

  /** A `Set` that fails, for whatever reason, changes no attribute; one
      that succeeds changes no other attribute. */
  lemma SetLeavesOthers(attrs: Attributes, attr: string, value: Value, nativeError: Option<string>,
                        other: string, missing: string)
    requires Set(attrs, attr, value, nativeError).1.Some? || other != attr
    ensures Get(Set(attrs, attr, value, nativeError).0, other, missing) == Get(attrs, other, missing)
  {
  }

  /** The attribute is set and its text decodes to a JSON string. */
  predicate HoldsString(attrs: Attributes, attr: string) {
    attr in attrs && Unmarshal(attrs[attr]).Success? && Unmarshal(attrs[attr]).value.String?
  }

  /** `getString`: the attribute's value if it is set and is a JSON string,
      and "" in every other case. */
  function GetString(attrs: Attributes, attr: string): (s: string)
    ensures HoldsString(attrs, attr) ==> s == Unmarshal(attrs[attr]).value.s
    ensures !HoldsString(attrs, attr) ==> s == ""
  {
    // The error's text is discarded, so the message for a missing attribute
    // does not matter here.
    match Get(attrs, attr, "")
    case Success(String(s)) => s
    case _ => ""
  }

  const UriKey: string := "uri"
  const TitleKey: string := "title"
  const ArtKey: string := "art"
  const DndUriKey: string := "dnd_uri"

  /** Writing a string attribute and reading it back. */
  lemma GetStringAfterSet(attrs: Attributes, attr: string, s: string)
    ensures Set(attrs, attr, String(s), None).1.None?
    ensures GetString(Set(attrs, attr, String(s), None).0, attr) == s
  {
    GetAfterSet(attrs, attr, String(s), "");
  }

  function SetURI(attrs: Attributes, uri: string, nativeError: Option<string>): (r: (Attributes, Option<Error>))
    ensures r.1.None? <==> nativeError.None?
    ensures r.1.None? ==> r.0 == attrs[UriKey := Quote(uri)]
    ensures r.1.Some? ==> r.0 == attrs
  {
    Set(attrs, UriKey, String(uri), nativeError)
  }

  function SetTitle(attrs: Attributes, title: string, nativeError: Option<string>): (r: (Attributes, Option<Error>))
    ensures r.1.None? <==> nativeError.None?
    ensures r.1.None? ==> r.0 == attrs[TitleKey := Quote(title)]
    ensures r.1.Some? ==> r.0 == attrs
  {
    Set(attrs, TitleKey, String(title), nativeError)
  }

  function SetArt(attrs: Attributes, art: string, nativeError: Option<string>): (r: (Attributes, Option<Error>))
    ensures r.1.None? <==> nativeError.None?
    ensures r.1.None? ==> r.0 == attrs[ArtKey := Quote(art)]
    ensures r.1.Some? ==> r.0 == attrs
  {
    Set(attrs, ArtKey, String(art), nativeError)
  }

  function SetDndURI(attrs: Attributes, uri: string, nativeError: Option<string>): (r: (Attributes, Option<Error>))
    ensures r.1.None? <==> nativeError.None?
    ensures r.1.None? ==> r.0 == attrs[DndUriKey := Quote(uri)]
    ensures r.1.Some? ==> r.0 == attrs
  {
    Set(attrs, DndUriKey, String(uri), nativeError)
  }

  function URI(attrs: Attributes): (s: string)
    ensures HoldsString(attrs, UriKey) ==> s == Unmarshal(attrs[UriKey]).value.s
    ensures !HoldsString(attrs, UriKey) ==> s == ""
  {
    GetString(attrs, UriKey)
  }

  function Title(attrs: Attributes): (s: string)
    ensures HoldsString(attrs, TitleKey) ==> s == Unmarshal(attrs[TitleKey]).value.s
    ensures !HoldsString(attrs, TitleKey) ==> s == ""
  {
    GetString(attrs, TitleKey)
  }

  function Art(attrs: Attributes): (s: string)
    ensures HoldsString(attrs, ArtKey) ==> s == Unmarshal(attrs[ArtKey]).value.s
    ensures !HoldsString(attrs, ArtKey) ==> s == ""
  {
    GetString(attrs, ArtKey)
  }

  function DndURI(attrs: Attributes): (s: string)
    ensures HoldsString(attrs, DndUriKey) ==> s == Unmarshal(attrs[DndUriKey]).value.s
    ensures !HoldsString(attrs, DndUriKey) ==> s == ""
  {
    GetString(attrs, DndUriKey)
  }

  /** Writing one string attribute leaves the reading of another as it was. */
  lemma GetStringOtherKey(attrs: Attributes, attr: string, s: string, other: string)
    requires other != attr
    ensures GetString(Set(attrs, attr, String(s), None).0, other) == GetString(attrs, other)
  {
    SetLeavesOthers(attrs, attr, String(s), None, other, "");
  }

  lemma UriRoundTrip(attrs: Attributes, s: string)
    ensures URI(SetURI(attrs, s, None).0) == s
    ensures var a := SetURI(attrs, s, None).0;
            Title(a) == Title(attrs) && Art(a) == Art(attrs) && DndURI(a) == DndURI(attrs)
  {
    GetStringAfterSet(attrs, UriKey, s);
    GetStringOtherKey(attrs, UriKey, s, TitleKey);
    GetStringOtherKey(attrs, UriKey, s, ArtKey);
    GetStringOtherKey(attrs, UriKey, s, DndUriKey);
  }

  lemma TitleRoundTrip(attrs: Attributes, s: string)
    ensures Title(SetTitle(attrs, s, None).0) == s
    ensures var a := SetTitle(attrs, s, None).0;
            URI(a) == URI(attrs) && Art(a) == Art(attrs) && DndURI(a) == DndURI(attrs)
  {
    GetStringAfterSet(attrs, TitleKey, s);
    GetStringOtherKey(attrs, TitleKey, s, UriKey);
    GetStringOtherKey(attrs, TitleKey, s, ArtKey);
    GetStringOtherKey(attrs, TitleKey, s, DndUriKey);
  }

  lemma ArtRoundTrip(attrs: Attributes, s: string)
    ensures Art(SetArt(attrs, s, None).0) == s
    ensures var a := SetArt(attrs, s, None).0;
            URI(a) == URI(attrs) && Title(a) == Title(attrs) && DndURI(a) == DndURI(attrs)
  {
    GetStringAfterSet(attrs, ArtKey, s);
    GetStringOtherKey(attrs, ArtKey, s, UriKey);
    GetStringOtherKey(attrs, ArtKey, s, TitleKey);
    GetStringOtherKey(attrs, ArtKey, s, DndUriKey);
  }

  lemma DndUriRoundTrip(attrs: Attributes, s: string)
    ensures DndURI(SetDndURI(attrs, s, None).0) == s
    ensures var a := SetDndURI(attrs, s, None).0;
            URI(a) == URI(attrs) && Title(a) == Title(attrs) && Art(a) == Art(attrs)
  {
    GetStringAfterSet(attrs, DndUriKey, s);
    GetStringOtherKey(attrs, DndUriKey, s, UriKey);
    GetStringOtherKey(attrs, DndUriKey, s, TitleKey);
    GetStringOtherKey(attrs, DndUriKey, s, ArtKey);
  }

  // ---- The native handle ----

  /** The Go wrapper's pointer to the native result; None once destroyed. */
  datatype ResultHandle = ResultHandle(native: Option<nat>)

  /** `CategorisedResult` embeds a result. */
  datatype CategorisedResult = CategorisedResult(result: ResultHandle)

  /** `finalizeResult`: the handle afterwards, and the native object it
      destroyed, if it still held one. */
  function FinalizeResult(res: ResultHandle): (r: (ResultHandle, Option<nat>))
    ensures r.0.native.None?
    ensures r.1 == res.native
  {
    (ResultHandle(None), res.native)
  }

  /** `finalizeCategorisedResult`: finalizes the embedded result. */
  function FinalizeCategorisedResult(c: CategorisedResult): (r: (CategorisedResult, Option<nat>))
    ensures r.0.result.native.None?
    ensures r.1 == c.result.native
  {
    var (res, destroyed) := FinalizeResult(c.result);
    (CategorisedResult(res), destroyed)
  }

  /** `n` finalizations in a row: the handle afterwards and every native
      object destroyed, in order. */
  function FinalizeTimes(res: ResultHandle, n: nat): (ResultHandle, seq<nat>)
    decreases n
  {
    if n == 0 then (res, [])
    else
      var (next, destroyed) := FinalizeResult(res);
      var (last, more) := FinalizeTimes(next, n - 1);
      (last, (if destroyed.Some? then [destroyed.value] else []) + more)
  }

  /** However often a result is finalized, its native object is destroyed
      at most once, and only if there was one. */
  lemma {:induction false} DestroyedAtMostOnce(res: ResultHandle, n: nat)
    ensures n > 0 && res.native.Some? ==> FinalizeTimes(res, n).1 == [res.native.value]
    ensures n == 0 || res.native.None? ==> FinalizeTimes(res, n).1 == []
  {
    if n > 0 {
      NothingLeftToDestroy(ResultHandle(None), n - 1);
    }
  }

  lemma {:induction false} NothingLeftToDestroy(res: ResultHandle, n: nat)
    requires res.native.None?
    ensures FinalizeTimes(res, n).1 == []
  {
    if n > 0 {
      NothingLeftToDestroy(ResultHandle(None), n - 1);
    }
  }
}
