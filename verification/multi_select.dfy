/** The selection logic of the multi-select widget.

    The widget owns no selection of its own: the parent passes the current
    `selected` list and the candidate `options`, and every user action computes
    a fresh list that is handed back through the change callback. Each action is
    therefore modelled as a pure function from the current list to the emitted
    one. Lists are sequences, not sets: the widget keeps insertion order, and
    nothing in it prevents duplicates, so the set-like guarantees are proved
    under explicit hypotheses. */
module MultiSelect {

  /** Text shown when nothing is selected and the caller gave no placeholder. */
  const DEFAULT_PLACEHOLDER: string := "Select options..."

  /** At most this many selected items are shown as individual chips. */
  const MAX_CHIPS: nat := 3

  // ---------------------------------------------------------------------------
  // Vocabulary
  // ---------------------------------------------------------------------------

  /** No value occurs twice in `s`. */
  predicate NoDuplicates<T(==)>(s: seq<T>) {
    forall i, j :: 0 <= i < j < |s| ==> s[i] != s[j]
  }

  /** Every element of `s` is one of the `options`. */
  predicate SubsetOf<T(==)>(s: seq<T>, options: seq<T>) {
    forall x :: x in s ==> x in options
  }

  /** `a` can be obtained from `b` by deleting elements: same relative order. */
  predicate IsSubsequence<T(==)>(a: seq<T>, b: seq<T>)
    decreases |b|
  {
    if |a| == 0 then true
    else if |b| == 0 then false
    else if a[0] == b[0] then IsSubsequence(a[1..], b[1..])
    else IsSubsequence(a, b[1..])
  }

  /** A selection as the widget's caller is expected to hold it: drawn from the
      candidates, each candidate at most once. */
  predicate ValidSelection(selected: seq<string>, options: seq<string>) {
    NoDuplicates(selected) && SubsetOf(selected, options)
  }

  /** The list filtered by `item !== option`: every occurrence of `option` is
      dropped and everything else keeps its place. */
  function Without(s: seq<string>, option: string): (r: seq<string>)
    ensures forall x :: x in r <==> x in s && x != option
    ensures multiset(r) == multiset(s)[option := 0]
    ensures IsSubsequence(r, s)
    decreases |s|
  {
    if |s| == 0 then []
    else
      assert s == [s[0]] + s[1..];
      if s[0] == option then
        var r := Without(s[1..], option);
        assert |r| == 0 || r[0] != s[0] by { assert |r| == 0 || r[0] in r; }
        r
      else [s[0]] + Without(s[1..], option)
  }

  // ---------------------------------------------------------------------------
  // The four actions
  // ---------------------------------------------------------------------------

  /** Clicking a row of the option list: remove the option if it is selected,
      otherwise append it. */
  function ToggleOption(selected: seq<string>, option: string): (r: seq<string>)
    ensures option in selected ==> option !in r
    ensures option in selected ==> multiset(r) == multiset(selected)[option := 0]
    ensures option in selected ==> IsSubsequence(r, selected)
    ensures option !in selected ==>
              |r| == |selected| + 1 && r[..|selected|] == selected && r[|selected|] == option
    ensures forall x :: x in r <==>
              if option in selected then x in selected && x != option
              else x in selected || x == option
  {
    if option in selected then Without(selected, option) else selected + [option]
  }

  /** The "Select All" button: the whole candidate list, whatever was selected. */
  function SelectAll(selected: seq<string>, options: seq<string>): (r: seq<string>)
    ensures r == options
    ensures SubsetOf(r, options) && SubsetOf(options, r)
    ensures NoDuplicates(options) ==> ValidSelection(r, options)
  {
    options
  }

  /** The "Clear All" button: nothing selected. */
  function ClearAll(): (r: seq<string>)
    ensures forall options: seq<string> :: ValidSelection(r, options)
    ensures forall x :: x !in r
  {
    []
  }

  /** The remove cross on a chip: drop every occurrence of `option`. */
  function RemoveSelected(selected: seq<string>, option: string): (r: seq<string>)
    ensures option !in r
    ensures multiset(r) == multiset(selected)[option := 0]
    ensures |r| <= |selected|
    ensures forall x :: x in r ==> x in selected
    ensures IsSubsequence(r, selected)
    ensures option !in selected ==> r == selected
  {
    var r := Without(selected, option);
    assert option !in selected ==> r == selected by {
      if option !in selected {
        WithoutAbsent(selected, option);
      }
    }
    r
  }

  // ---------------------------------------------------------------------------
  // The chip display rule
  // ---------------------------------------------------------------------------

  /** What the trigger button shows for the current selection. */
  datatype Display =
    | Placeholder(text: string)
    | Chips(items: seq<string>)
    | Summary(count: nat)

  /** Nothing selected: the placeholder; up to three: one chip per selected
      item, in order; more: a single "N selected" badge. */
  function ShowSelection(selected: seq<string>, placeholder: string): (d: Display)
    ensures d.Placeholder? <==> |selected| == 0
    ensures d.Chips? <==> 1 <= |selected| <= MAX_CHIPS
    ensures d.Summary? <==> |selected| > MAX_CHIPS
    ensures d.Placeholder? ==> d.text == placeholder
    ensures d.Chips? ==> d.items == selected
    ensures d.Summary? ==> d.count == |selected|
  {
    if |selected| == 0 then Placeholder(placeholder)
    else if |selected| <= MAX_CHIPS then Chips(selected)
    else Summary(|selected|)
  }

  // ---------------------------------------------------------------------------
  // Lemmas
  // ---------------------------------------------------------------------------

  /** Filtering out a value that is not there changes nothing. */
  lemma {:induction false} WithoutAbsent(s: seq<string>, option: string)
    requires option !in s
    ensures Without(s, option) == s
    decreases |s|
  {
    if |s| > 0 {
      WithoutAbsent(s[1..], option);
    }
  }

  /** Filtering distributes over concatenation. */
  lemma {:induction false} WithoutAppend(a: seq<string>, b: seq<string>, option: string)
    ensures Without(a + b, option) == Without(a, option) + Without(b, option)
    decreases |a|
  {
    if |a| == 0 {
      assert a + b == b;
    } else {
      assert (a + b)[1..] == a[1..] + b;
      WithoutAppend(a[1..], b, option);
    }
  }

  /** Prepending a fresh value keeps a list duplicate-free. */
  lemma NoDuplicatesCons(x: string, t: seq<string>)
    requires x !in t && NoDuplicates(t)
    ensures NoDuplicates([x] + t)
  {
    var s := [x] + t;
    forall i, j | 0 <= i < j < |s|
      ensures s[i] != s[j]
    {
      assert s[j] == t[j - 1];
      if i > 0 {
        assert s[i] == t[i - 1];
      }
    }
  }

  /** Filtering keeps a duplicate-free list duplicate-free. */
  lemma {:induction false} WithoutKeepsNoDuplicates(s: seq<string>, option: string)
    requires NoDuplicates(s)
    ensures NoDuplicates(Without(s, option))
    decreases |s|
  {
    if |s| > 0 {
      var t := s[1..];
      assert NoDuplicates(t) by {
        forall i, j | 0 <= i < j < |t| ensures t[i] != t[j] {
          assert t[i] == s[i + 1] && t[j] == s[j + 1];
        }
      }
      WithoutKeepsNoDuplicates(t, option);
      if s[0] != option {
        assert s[0] !in t by {
          forall k | 0 <= k < |t| ensures t[k] != s[0] {
            assert t[k] == s[k + 1];
          }
        }
        NoDuplicatesCons(s[0], Without(t, option));
      }
    }
  }

  /** Appending a value not yet present keeps a list duplicate-free. */
  lemma AppendKeepsNoDuplicates(s: seq<string>, option: string)
    requires NoDuplicates(s) && option !in s
    ensures NoDuplicates(s + [option])
  {
    var r := s + [option];
    forall i, j | 0 <= i < j < |r|
      ensures r[i] != r[j]
    {
      assert r[i] == s[i];
      if j < |s| {
        assert r[j] == s[j];
      }
    }
  }

  /** Toggling an unselected option on and off again restores the list
      exactly, order included. */
  lemma ToggleTwiceAbsent(selected: seq<string>, option: string)
    requires option !in selected
    ensures ToggleOption(ToggleOption(selected, option), option) == selected
  {
    var once := selected + [option];
    assert option in once;
    WithoutAppend(selected, [option], option);
    WithoutAbsent(selected, option);
    assert Without([option], option) == [];
  }

  /** Toggling a selected option off and on again restores the same elements,
      with the option moved to the end. */
  lemma ToggleTwicePresent(selected: seq<string>, option: string)
    requires option in selected
    ensures var twice := ToggleOption(ToggleOption(selected, option), option);
            (forall x :: x in twice <==> x in selected)
            && twice[|twice| - 1] == option
            && twice[..|twice| - 1] == Without(selected, option)
  {
  }

  /** Toggling keeps the list duplicate-free. */
  lemma ToggleKeepsNoDuplicates(selected: seq<string>, option: string)
    requires NoDuplicates(selected)
    ensures NoDuplicates(ToggleOption(selected, option))
  {
    if option in selected {
      WithoutKeepsNoDuplicates(selected, option);
    } else {
      AppendKeepsNoDuplicates(selected, option);
    }
  }

  /** Toggling a candidate keeps a valid selection valid. */
  lemma ToggleKeepsValid(selected: seq<string>, options: seq<string>, option: string)
    requires ValidSelection(selected, options)
    requires option in options
    ensures ValidSelection(ToggleOption(selected, option), options)
  {
    ToggleKeepsNoDuplicates(selected, option);
  }

  /** The toggle does not check that the option is a candidate: toggling an
      unselected non-candidate puts it into the selection. */
  lemma ToggleOutsideOptions(selected: seq<string>, options: seq<string>, option: string)
    requires option !in options && option !in selected
    ensures !SubsetOf(ToggleOption(selected, option), options)
  {
    assert ToggleOption(selected, option)[|selected|] == option;
  }

  /** Removing keeps a valid selection valid. */
  lemma RemoveKeepsValid(selected: seq<string>, options: seq<string>, option: string)
    requires ValidSelection(selected, options)
    ensures ValidSelection(RemoveSelected(selected, option), options)
  {
    WithoutKeepsNoDuplicates(selected, option);
  }

  /** Removing twice is removing once. */
  lemma RemoveIdempotent(selected: seq<string>, option: string)
    ensures RemoveSelected(RemoveSelected(selected, option), option)
         == RemoveSelected(selected, option)
  {
  }

  /** On a selected option the chip's remove cross and the list row agree. */
  lemma RemoveIsToggleWhenSelected(selected: seq<string>, option: string)
    requires option in selected
    ensures RemoveSelected(selected, option) == ToggleOption(selected, option)
  {
  }

  /** A caller that passes no placeholder gets the default text while the
      selection is empty. */
  lemma EmptySelectionShowsDefaultPlaceholder(selected: seq<string>)
    requires |selected| == 0
    ensures ShowSelection(selected, DEFAULT_PLACEHOLDER) == Placeholder("Select options...")
  {
  }

  /** Every chip shown names a selected item, so its remove cross acts as a
      toggle of that item. */
  lemma ChipRemovalIsToggle(selected: seq<string>, placeholder: string, k: nat)
    requires ShowSelection(selected, placeholder).Chips?
    requires k < |ShowSelection(selected, placeholder).items|
    ensures var chip := ShowSelection(selected, placeholder).items[k];
            RemoveSelected(selected, chip) == ToggleOption(selected, chip)
  {
    var chip := selected[k];
    RemoveIsToggleWhenSelected(selected, chip);
  }

  // ---------------------------------------------------------------------------
  // The widget as a whole
  // ---------------------------------------------------------------------------

  /** A user action on the widget. */
  datatype Action =
    | ToggleRow(option: string)
    | SelectAllButton
    | ClearAllButton
    | RemoveChip(option: string)

  /** The actions the rendered widget can produce: rows are drawn from
      `options`, chips from `selected`. */
  predicate Offered(selected: seq<string>, options: seq<string>, a: Action) {
    match a
    case ToggleRow(o) => o in options
    case RemoveChip(o) => o in selected
    case _ => true
  }

  /** The list emitted through the change callback for an action. */
  function Apply(selected: seq<string>, options: seq<string>, a: Action): (r: seq<string>)
    ensures a.ClearAllButton? ==> |r| == 0
    ensures a.SelectAllButton? ==> r == options
    ensures a.RemoveChip? ==> a.option !in r
    ensures a.ToggleRow? && a.option !in selected ==> r == selected + [a.option]
    ensures a.ToggleRow? && a.option in selected ==>
              multiset(r) == multiset(selected)[a.option := 0] && IsSubsequence(r, selected)
    ensures a.RemoveChip? ==>
              multiset(r) == multiset(selected)[a.option := 0] && IsSubsequence(r, selected)
  {
    match a
    case ToggleRow(o) => ToggleOption(selected, o)
    case SelectAllButton => SelectAll(selected, options)
    case ClearAllButton => ClearAll()
    case RemoveChip(o) => RemoveSelected(selected, o)
  }

  /** With duplicate-free candidates, every action the widget offers keeps a
      valid selection valid. */
  lemma ApplyKeepsValid(selected: seq<string>, options: seq<string>, a: Action)
    requires NoDuplicates(options)
    requires ValidSelection(selected, options)
    requires Offered(selected, options, a)
    ensures ValidSelection(Apply(selected, options, a), options)
  {
    match a
    case ToggleRow(o) => ToggleKeepsValid(selected, options, o);
    case SelectAllButton =>
    case ClearAllButton =>
    case RemoveChip(o) => RemoveKeepsValid(selected, options, o);
  }
}
