/** The rating filter: a search-refinement widget whose state is at most one
    selected option id, kept in the query's filter state under the filter's
    own id. The filter state is the map a `FilterState` holds, from filter id
    to whatever dynamic value is stored there. */
module RatingFilter {
  import opened Outcomes
  import opened JsonValue

  /** How the host lays a filter out. */
  datatype DisplayHints = DisplayDefault | DisplayPrimary

  datatype FilterOption = FilterOption(id: string, labelText: string)

  /** The fields every filter kind shares. */
  datatype FilterBase = FilterBase(id: string, displayHints: DisplayHints, filterType: string)

  datatype Filter = RatingFilter(
    base: FilterBase,
    options: seq<FilterOption>,
    labelText: string,
    onIcon: string,
    offIcon: string)

  type FilterState = map<string, Value>

  const RatingType: string := "rating"

  /** `NewRatingFilter(id, label)`: no options and no icons yet. */
  function NewRatingFilter(id: string, labelText: string): (f: Filter)
    ensures f.base == FilterBase(id, DisplayDefault, RatingType)
    ensures f.labelText == labelText
    ensures f.options == [] && f.onIcon == "" && f.offIcon == ""
  {
    RatingFilter(FilterBase(id, DisplayDefault, RatingType), [], labelText, "", "")
  }

  /** `ActiveRating`: the selected option id, and whether there is one. An
      entry that is not a string counts as no selection. */
  function ActiveRating(f: Filter, state: FilterState): (r: (string, bool))
    ensures r.1 <==> f.base.id in state && state[f.base.id].String?
    ensures r.1 ==> r.0 == state[f.base.id].s
    ensures !r.1 ==> r.0 == ""
  {
    if f.base.id in state then
      match state[f.base.id]
      case String(s) => (s, true)
      case _ => ("", false)
    else ("", false)
  }

  /** `UpdateState`: turning an option on selects it; turning off the
      selected option clears the selection; turning off any other option
      changes nothing. `isValidOption` is the shared option check of filters
      with options; the source panics when it fails. */
  function UpdateState(f: Filter, state: FilterState, optionId: string, active: bool,
                       isValidOption: string -> bool): (r: FilterState)
    requires isValidOption(optionId)
    ensures active ==> ActiveRating(f, r) == (optionId, true)
    ensures !active && ActiveRating(f, state) == (optionId, true) ==> f.base.id !in r
    ensures !active && ActiveRating(f, state) != (optionId, true) ==> r == state
    ensures forall k :: k != f.base.id ==> (k in r <==> k in state)
    ensures forall k :: k != f.base.id && k in r ==> r[k] == state[k]
  {
    var (selected, ok) := ActiveRating(f, state);
    if ok && selected == optionId && !active then state - {f.base.id}
    else if active then state[f.base.id := String(optionId)]
    else state
  }

  /** The state the filter keeps: no entry, or one valid option id. */
  predicate StateOk(f: Filter, state: FilterState, isValidOption: string -> bool) {
    f.base.id in state ==> state[f.base.id].String? && isValidOption(state[f.base.id].s)
  }

  /** UpdateState keeps the filter's entry a single valid option id. */
  lemma UpdateKeepsStateOk(f: Filter, state: FilterState, optionId: string, active: bool,
                           isValidOption: string -> bool)
    requires isValidOption(optionId)
    requires StateOk(f, state, isValidOption)
    ensures StateOk(f, UpdateState(f, state, optionId, active, isValidOption), isValidOption)
  {
  }

  /** The selection after an update, in terms of the selection before it. */
  lemma ActiveAfterUpdate(f: Filter, state: FilterState, optionId: string, active: bool,
                          isValidOption: string -> bool)
    requires isValidOption(optionId)
    ensures ActiveRating(f, UpdateState(f, state, optionId, active, isValidOption))
            == if active then (optionId, true)
               else if ActiveRating(f, state) == (optionId, true) then ("", false)
               else ActiveRating(f, state)
  {
  }

  /** Repeating an update changes nothing more. */
  lemma UpdateIdempotent(f: Filter, state: FilterState, optionId: string, active: bool,
                         isValidOption: string -> bool)
    requires isValidOption(optionId)
    ensures var once := UpdateState(f, state, optionId, active, isValidOption);
            UpdateState(f, once, optionId, active, isValidOption) == once
  {
    var once := UpdateState(f, state, optionId, active, isValidOption);
    var twice := UpdateState(f, once, optionId, active, isValidOption);
    if active {
      assert once == state[f.base.id := String(optionId)];
    }
    assert twice.Keys == once.Keys;
  }

  /** A value in a serialized filter: a dynamic value, or the option list
      (which the encoder writes later). */
  datatype Field = Dyn(value: Value) | Options(options: seq<FilterOption>)

  /** `serializeFilter`: the shared fields `baseFields`, written by the
      filter kinds' common serializer, plus the label and the options. */
  function SerializeFilter(f: Filter, baseFields: map<string, Field>): (r: map<string, Field>)
    ensures r.Keys == baseFields.Keys + {"label", "options"}
    ensures r["label"] == Dyn(String(f.labelText))
    ensures r["options"] == Options(f.options)
    ensures forall k :: k in baseFields && k != "label" && k != "options" ==> r[k] == baseFields[k]
  {
    baseFields["label" := Dyn(String(f.labelText))]["options" := Options(f.options)]
  }
}
