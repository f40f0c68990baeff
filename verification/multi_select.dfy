/** The `SearchableMultiSelect` component: a case-insensitive search over
    the options, and a selection edited one option at a time or all at
    once. */
module MultiSelect {
  import opened Seqs
  import opened Text

  /** An option is shown when its lower-cased text contains the
      lower-cased query. */
  predicate MatchesQuery(option: string, query: string)
  {
    Contains(ToLowerAscii(option), ToLowerAscii(query))
  }

  /** The options shown for a query, in their given order. */
  function FilterOptions(options: seq<string>, query: string): seq<string>
  {
    Filter(options, (opt: string) => MatchesQuery(opt, query))
  }

  /** The shown options are exactly the matching ones, unmodified and in
      order, each as often as it is given. */
  lemma FilterOptionsSpec(options: seq<string>, query: string)
    ensures IsSubsequence(FilterOptions(options, query), options)
    ensures forall i :: 0 <= i < |FilterOptions(options, query)| ==>
              MatchesQuery(FilterOptions(options, query)[i], query)
    ensures forall opt ::
              multiset(FilterOptions(options, query))[opt]
              == if MatchesQuery(opt, query) then multiset(options)[opt] else 0
  {
    FilterSpec(options, (opt: string) => MatchesQuery(opt, query));
    FilterIsSubsequence(options, (opt: string) => MatchesQuery(opt, query));
  }

  /** The empty query shows every option. */
  lemma EmptyQueryShowsAll(options: seq<string>)
    ensures FilterOptions(options, "") == options
  {
    forall i | 0 <= i < |options|
      ensures MatchesQuery(options[i], "")
    {
      assert InfixAt(ToLowerAscii(options[i]), ToLowerAscii(""), 0);
    }
    FilterKeepsAll(options, (opt: string) => MatchesQuery(opt, ""));
  }

  /** The query's letter case does not matter. */
  lemma QueryCaseIgnored(options: seq<string>, query: string)
    ensures FilterOptions(options, query) == FilterOptions(options, ToLowerAscii(query))
  {
    ToLowerIdempotent(query);
    FilterCongruent(options, (opt: string) => MatchesQuery(opt, query),
                    (opt: string) => MatchesQuery(opt, ToLowerAscii(query)));
  }

  /** `toggleOption`: a selected option is removed, every copy of it; an
      unselected one is appended. */
  function Toggle(selected: seq<string>, option: string): (r: seq<string>)
    ensures option in selected ==>
      && option !in r
      && IsSubsequence(r, selected)
      && forall x :: x != option ==> multiset(r)[x] == multiset(selected)[x]
    ensures option !in selected ==> r == selected + [option]
  {
    if option in selected then
      var p := (s: string) => s != option;
      FilterSpec(selected, p);
      FilterIsSubsequence(selected, p);
      assert forall i :: 0 <= i < |Filter(selected, p)| ==> Filter(selected, p)[i] != option;
      Filter(selected, p)
    else selected + [option]
  }

  /** Toggling changes whether the toggled option is checked and leaves
      every other option's check mark as it was. */
  lemma ToggleFlipsOnlyArgument(selected: seq<string>, option: string, other: string)
    ensures option in Toggle(selected, option) <==> option !in selected
    ensures other != option ==> (other in Toggle(selected, option) <==> other in selected)
  {
    var r := Toggle(selected, option);
    if other != option && option in selected {
      assert other in r <==> multiset(r)[other] > 0;
      assert other in selected <==> multiset(selected)[other] > 0;
    }
  }

  /** Selecting and then deselecting an option restores the selection. */
  lemma ToggleTwiceRestores(selected: seq<string>, option: string)
    requires option !in selected
    ensures Toggle(Toggle(selected, option), option) == selected
  {
    var p := (s: string) => s != option;
    FilterSnoc(selected, option, p);
    FilterKeepsAll(selected, p);
  }

  /** What a click in the list does. */
  datatype Action = Pick(option: string) | SelectAll | SelectNone

  /** The selection passed to `onChange` after an action: a pick toggles
      its option, "Select all" passes a copy of the options, in their order
      and with their repetitions, and "Select none" clears. */
  function OnSelect(options: seq<string>, selected: seq<string>, action: Action): (r: seq<string>)
    ensures action.SelectAll? ==> multiset(r) == multiset(options) && IsSubsequence(r, options)
    ensures action.SelectNone? ==> forall opt :: opt !in r
    ensures action.Pick? ==> r == Toggle(selected, action.option)
    ensures action.Pick? ==> (action.option in r <==> action.option !in selected)
  {
    match action
    case Pick(option) =>
      ToggleFlipsOnlyArgument(selected, option, option);
      Toggle(selected, option)
    case SelectAll =>
      SubsequenceRefl(options);
      options
    case SelectNone => []
  }

  /** The check marks after an action: a pick flips its own option and no
      other, "Select all" checks exactly the options, "Select none" checks
      nothing. */
  lemma OnSelectChecks(options: seq<string>, selected: seq<string>, action: Action, opt: string)
    ensures opt in OnSelect(options, selected, action) <==>
      match action
      case Pick(option) => (opt in selected) != (opt == option)
      case SelectAll => opt in options
      case SelectNone => false
  {
    var r := OnSelect(options, selected, action);
    match action
    case Pick(option) =>
      ToggleFlipsOnlyArgument(selected, option, opt);
    case SelectAll =>
      assert opt in r <==> multiset(r)[opt] > 0;
      assert opt in options <==> multiset(options)[opt] > 0;
    case SelectNone =>
  }

  /** Picking an unchecked option and then picking it again restores the
      selection. */
  lemma PickTwiceRestores(options: seq<string>, selected: seq<string>, option: string)
    requires option !in selected
    ensures OnSelect(options, OnSelect(options, selected, Pick(option)), Pick(option)) == selected
  {
    ToggleTwiceRestores(selected, option);
  }
}
