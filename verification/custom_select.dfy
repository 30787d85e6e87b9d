/**
 * The generic dropdown of the dashboard forms (components/common/CustomSelect.tsx):
 * option normalisation, case-insensitive search capped at 500 rendered options,
 * the displayed text, and the open/closed + search-query state the handlers drive.
 */
module CustomSelect {
  import opened Wrappers
  import opened Strings

  /** An icon component is only passed through; it is identified by name here. */
  type IconRef = string

  /** What a caller may pass: a bare string, or `{name, value?, icon?}`. */
  datatype RawOption =
    | Plain(text: string)
    | Labeled(name: string, value: Option<string>, icon: Option<IconRef>)

  /** The uniform shape every option is normalised to. */
  datatype SelectOption = SelectOption(name: string, value: string, icon: Option<IconRef>)

  /** At most this many options are ever rendered. */
  const MaxRendered: nat := 500

  function Normalize(o: RawOption): SelectOption {
    match o
    case Plain(text) => SelectOption(text, text, None)
    case Labeled(name, value, icon) => SelectOption(name, value.GetOr(name), icon)
  }

  /** `normalizedOptions`: one normalised option per input option, in the same order. */
  function NormalizeAll(opts: seq<RawOption>): (r: seq<SelectOption>)
    ensures |r| == |opts|
    ensures forall i :: 0 <= i < |opts| ==> r[i] == Normalize(opts[i])
  {
    seq(|opts|, i requires 0 <= i < |opts| => Normalize(opts[i]))
  }

  /** A string option shows and submits itself; an object option submits its value, or its name when it has none. */
  lemma NormalizedFields(opts: seq<RawOption>, i: int)
    requires 0 <= i < |opts|
    ensures opts[i].Plain? ==> NormalizeAll(opts)[i] == SelectOption(opts[i].text, opts[i].text, None)
    ensures opts[i].Labeled? ==>
      && NormalizeAll(opts)[i].name == opts[i].name
      && NormalizeAll(opts)[i].icon == opts[i].icon
      && (opts[i].value.None? ==> NormalizeAll(opts)[i].value == opts[i].name)
      && (opts[i].value.Some? ==> NormalizeAll(opts)[i].value == opts[i].value.value)
  {
  }

  /** `option.name.toLowerCase().includes(query)` for an already lower-cased query. */
  predicate Matches(o: SelectOption, query: string) {
    Contains(Lower(o.name), query)
  }

  /** `xs` is `ys` with some elements left out and the rest kept in order. */
  predicate IsSubsequence(xs: seq<SelectOption>, ys: seq<SelectOption>)
    decreases |ys|
  {
    if xs == [] then true
    else if ys == [] then false
    else if xs[0] == ys[0] then IsSubsequence(xs[1..], ys[1..])
    else IsSubsequence(xs, ys[1..])
  }

  /** `options.filter(...)`: the options whose name matches, in their original order. */
  function FilterByName(opts: seq<SelectOption>, query: string): (r: seq<SelectOption>)
    ensures |r| <= |opts|
    ensures IsSubsequence(r, opts)
    ensures forall o :: o in r <==> o in opts && Matches(o, query)
    ensures forall o :: multiset(r)[o] == if Matches(o, query) then multiset(opts)[o] else 0
  {
    if opts == [] then []
    else
      var rest := FilterByName(opts[1..], query);
      assert opts == [opts[0]] + opts[1..];
      if Matches(opts[0], query) then [opts[0]] + rest else rest
  }

  function Min(a: nat, b: nat): nat {
    if a <= b then a else b
  }

  /** `filteredOptions`: the search result (or every option when there is no search), cut to 500. */
  function FilteredOptions(normalized: seq<SelectOption>, searchable: bool, searchQuery: string): (r: seq<SelectOption>)
    ensures |r| <= MaxRendered
    ensures !searchable || Trim(searchQuery) == "" ==> r == normalized[..Min(MaxRendered, |normalized|)]
    ensures searchable && Trim(searchQuery) != "" ==>
      var matches := FilterByName(normalized, Trim(Lower(searchQuery)));
      r == matches[..Min(MaxRendered, |matches|)]
  {
    if searchable && Trim(searchQuery) != "" then
      var matches := FilterByName(normalized, Trim(Lower(searchQuery)));
      matches[..Min(MaxRendered, |matches|)]
    else
      normalized[..Min(MaxRendered, |normalized|)]
  }

  /** With a non-blank query every shown option matches it, and when there are at most 500
      matches every matching option is shown. */
  lemma SearchShowsExactlyTheMatches(normalized: seq<SelectOption>, searchQuery: string, o: SelectOption)
    requires Trim(searchQuery) != ""
    ensures o in FilteredOptions(normalized, true, searchQuery) ==> o in normalized && Matches(o, Trim(Lower(searchQuery)))
    ensures |FilterByName(normalized, Trim(Lower(searchQuery)))| <= MaxRendered ==>
      (o in FilteredOptions(normalized, true, searchQuery) <==> o in normalized && Matches(o, Trim(Lower(searchQuery))))
  {
    var matches := FilterByName(normalized, Trim(Lower(searchQuery)));
    if o in FilteredOptions(normalized, true, searchQuery) {
      var k :| 0 <= k < Min(MaxRendered, |matches|) && matches[..Min(MaxRendered, |matches|)][k] == o;
      assert matches[k] == o;
    }
    if |matches| <= MaxRendered {
      assert matches[..Min(MaxRendered, |matches|)] == matches;
    }
  }

  /** The index of the first option whose value is `value`, if any (`Array.prototype.find`). */
  function FindByValue(opts: seq<SelectOption>, value: string): (r: Option<nat>)
    ensures r.Some? ==> r.value < |opts| && opts[r.value].value == value
    ensures r.Some? ==> forall j :: 0 <= j < r.value ==> opts[j].value != value
    ensures r.None? ==> forall j :: 0 <= j < |opts| ==> opts[j].value != value
  {
    if opts == [] then None
    else if opts[0].value == value then Some(0)
    else
      match FindByValue(opts[1..], value)
      case None => None
      case Some(k) => Some(k + 1)
  }

  /** `displayValue`: the name of the first option carrying the current value, else the raw value. */
  function DisplayValue(normalized: seq<SelectOption>, value: string): (r: string)
    ensures (forall j :: 0 <= j < |normalized| ==> normalized[j].value != value) ==> r == value
    ensures forall i ::
              (0 <= i < |normalized| && normalized[i].value == value &&
               forall j :: 0 <= j < i ==> normalized[j].value != value) ==> r == normalized[i].name
  {
    match FindByValue(normalized, value)
    case Some(i) => normalized[i].name
    case None => value
  }

  /** The text on the closed control: the placeholder while the value is empty, else the display value. */
  function ButtonText(normalized: seq<SelectOption>, value: string, placeholder: string): (r: string)
    ensures value == "" ==> r == placeholder
    ensures value != "" ==> r == DisplayValue(normalized, value)
  {
    if value != "" then DisplayValue(normalized, value) else placeholder
  }

  /** `hasError`: the inline error is shown only when the field was touched and has a non-empty error. */
  predicate ShowsError(touched: Option<bool>, error: Option<string>) {
    touched == Some(true) && error.Some? && error.value != ""
  }

  /** The error text needs both a touched field and a non-empty message: an untouched field
      hides any error, and a touched field without a message shows none. */
  lemma ErrorNeedsTouchAndMessage(touched: Option<bool>, error: Option<string>)
    ensures touched != Some(true) ==> !ShowsError(touched, error)
    ensures error.None? || error == Some("") ==> !ShowsError(touched, error)
  {
  }

  /**
   * One mounted select. `isOpen` and `searchQuery` are its component state; the options,
   * `searchable` and `disabled` are props, fixed for the life of the object.
   */
  class SelectControl {
    const options: seq<SelectOption>
    const searchable: bool
    const disabled: bool
    var isOpen: bool
    var searchQuery: string

    /** The search box exists only on a searchable control, so nothing else can set a query. */
    ghost predicate Valid()
      reads this
    {
      !searchable ==> searchQuery == ""
    }

    /** The options currently rendered in the open list. */
    function Filtered(): (r: seq<SelectOption>)
      reads this
      ensures |r| <= MaxRendered
    {
      FilteredOptions(options, searchable, searchQuery)
    }

    constructor (raw: seq<RawOption>, searchable: bool, disabled: bool)
      ensures Valid()
      ensures options == NormalizeAll(raw) && this.searchable == searchable && this.disabled == disabled
      ensures !isOpen && searchQuery == ""
    {
      options := NormalizeAll(raw);
      this.searchable := searchable;
      this.disabled := disabled;
      isOpen := false;
      searchQuery := "";
    }

    /** A click on the control toggles the list, unless the control is disabled; the query is kept. */
    method Click()
      requires Valid()
      modifies this
      ensures Valid()
      ensures disabled ==> isOpen == old(isOpen)
      ensures !disabled ==> isOpen == !old(isOpen)
      ensures searchQuery == old(searchQuery)
    {
      if !disabled {
        isOpen := !isOpen;
      }
    }

    /** Typing into the search box, which is rendered only while a searchable control is open. */
    method TypeQuery(text: string)
      requires Valid()
      modifies this
      ensures Valid()
      ensures isOpen == old(isOpen)
      ensures searchQuery == if old(isOpen) && searchable then text else old(searchQuery)
    {
      if isOpen && searchable {
        searchQuery := text;
      }
    }

    /** Enter in the search box commits the first rendered option, if there is one, and closes. */
    method PressEnter() returns (committed: Option<string>)
      requires Valid()
      modifies this
      ensures Valid()
      ensures var shown := old(Filtered());
        if old(isOpen) && searchable && |shown| > 0 then
          committed == Some(shown[0].value) && !isOpen && searchQuery == ""
        else
          committed.None? && isOpen == old(isOpen) && searchQuery == old(searchQuery)
    {
      var shown := Filtered();
      if isOpen && searchable && |shown| > 0 {
        committed := Some(shown[0].value);
        isOpen := false;
        searchQuery := "";
      } else {
        committed := None;
      }
    }

    /** A click on the `i`-th rendered option commits its value and closes. */
    method ChooseOption(i: nat) returns (committed: Option<string>)
      requires Valid()
      modifies this
      ensures Valid()
      ensures var shown := old(Filtered());
        if old(isOpen) && i < |shown| then
          committed == Some(shown[i].value) && !isOpen && searchQuery == ""
        else
          committed.None? && isOpen == old(isOpen) && searchQuery == old(searchQuery)
    {
      var shown := Filtered();
      if isOpen && i < |shown| {
        committed := Some(shown[i].value);
        isOpen := false;
        searchQuery := "";
      } else {
        committed := None;
      }
    }

    /** Escape, heard only while the list is open, closes it and clears the query. */
    method PressEscape()
      requires Valid()
      modifies this
      ensures Valid()
      ensures !isOpen
      ensures old(isOpen) ==> searchQuery == ""
      ensures !old(isOpen) ==> searchQuery == old(searchQuery)
    {
      if isOpen {
        isOpen := false;
        searchQuery := "";
      }
    }

    /** A mouse-down outside the control, heard only while the list is open, does the same as Escape. */
    method ClickOutside()
      requires Valid()
      modifies this
      ensures Valid()
      ensures !isOpen
      ensures old(isOpen) ==> searchQuery == ""
      ensures !old(isOpen) ==> searchQuery == old(searchQuery)
    {
      if isOpen {
        isOpen := false;
        searchQuery := "";
      }
    }
  }

  /** On a control that is not searchable the list is always the first (at most 500) options. */
  lemma NotSearchableShowsPrefix(c: SelectControl)
    requires c.Valid() && !c.searchable
    ensures c.Filtered() == c.options[..Min(MaxRendered, |c.options|)]
  {
  }

  /** The query "spr" is already lower-case and trimmed. */
  lemma PlainQuery(query: string)
    requires query == "spr"
    ensures Trim(Lower(query)) == "spr"
  {
    var q := Lower(query);
    assert q[0] == LowerChar('s') && q[1] == LowerChar('p') && q[2] == LowerChar('r');
    assert q == "spr";
    TrimKeepsTrimmed(q);
  }

  /** "Springfield" lower-cased starts with "spr". */
  lemma SpringfieldMatches(name: string)
    requires name == "Springfield"
    ensures Contains(Lower(name), "spr")
  {
    var lower := Lower(name);
    assert lower[0] == LowerChar('S') && lower[1] == LowerChar('p') && lower[2] == LowerChar('r');
    assert lower[..3] == "spr";
    assert StartsWith(lower, "spr");
  }

  /** "boston" has no "spr" anywhere. */
  lemma BostonDoesNotMatch(name: string)
    requires name == "Boston"
    ensures !Contains(Lower(name), "spr")
  {
    var lower := Lower(name);
    ContainsIffOccurs(lower, "spr");
    forall k | 0 <= k <= 3 ensures !OccursAt(lower, "spr", k) {
      if k == 2 {
        assert lower[3] == LowerChar(name[3]) == LowerChar('t') == 't';
        assert lower[k..k + 3][1] == lower[3];
      } else {
        assert name[k] == 'B' || name[k] == 'o' || name[k] == 't';
        assert lower[k] == LowerChar(name[k]) != 's';
        assert lower[k..k + 3][0] == lower[k];
      }
    }
  }

  /** The example of the search contract: the query "spr" finds "Springfield" and not "Boston". */
  lemma SearchExample(query: string, springfield: SelectOption, boston: SelectOption)
    requires query == "spr" && springfield.name == "Springfield" && boston.name == "Boston"
    ensures Matches(springfield, Trim(Lower(query)))
    ensures !Matches(boston, Trim(Lower(query)))
  {
    PlainQuery(query);
    SpringfieldMatches(springfield.name);
    BostonDoesNotMatch(boston.name);
  }
}
