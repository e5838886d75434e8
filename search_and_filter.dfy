/**
 * The filter controls: the selected type names, the rarity slider's range and the
 * search text, the handlers that change them, and the callbacks they fire.
 */
module SearchAndFilter {
  import opened Wrappers
  import opened Seqs
  import opened Decimal

  /** The two thumbs of the rarity slider, `[lo, hi]`. */
  datatype RarityRange = RarityRange(lo: int, hi: int)

  /** One invocation of a callback the parent passed in. */
  datatype Notification =
    | TypeFilter(types: seq<string>)
    | RarityFilter(rarity: Option<int>)
    | Search(query: string)

  /** The value of `maxRarity` when the parent passes none. */
  const DefaultMaxRarity := 10

  const Star := '★'

  /** `selectedTypes.filter(t => t !== typeName)`. */
  function RemoveAll(selection: seq<string>, typeName: string): (r: seq<string>)
    ensures typeName !in r
    ensures forall t :: t != typeName ==> multiset(r)[t] == multiset(selection)[t]
    ensures IsSubsequence(r, selection)
  {
    if selection == [] then []
    else
      var rest := RemoveAll(selection[1..], typeName);
      assert selection == [selection[0]] + selection[1..];
      if selection[0] == typeName then rest else [selection[0]] + rest
  }

  /**
   * The selection after clicking `typeName`: every occurrence removed when it is
   * selected, otherwise appended at the end.
   */
  function ToggledSelection(selection: seq<string>, typeName: string): (r: seq<string>)
    ensures typeName in r <==> typeName !in selection
    ensures typeName !in selection ==> r == selection + [typeName]
    ensures typeName in selection ==> IsSubsequence(r, selection)
    ensures forall t :: t != typeName ==> multiset(r)[t] == multiset(selection)[t]
  {
    if typeName in selection then RemoveAll(selection, typeName) else selection + [typeName]
  }

  /** Removing a name that was just appended to a selection without it gives the selection back. */
  lemma {:induction false} RemoveAppended(selection: seq<string>, typeName: string)
    requires typeName !in selection
    ensures RemoveAll(selection + [typeName], typeName) == selection
  {
    if selection == [] {
    } else {
      assert (selection + [typeName])[1..] == selection[1..] + [typeName];
      RemoveAppended(selection[1..], typeName);
    }
  }

  /** Toggling an unselected name twice restores the selection. */
  lemma ToggleTwiceRestores(selection: seq<string>, typeName: string)
    requires typeName !in selection
    ensures ToggledSelection(ToggledSelection(selection, typeName), typeName) == selection
  {
    RemoveAppended(selection, typeName);
  }

  /** A toggle never introduces a duplicate name. */
  lemma ToggleKeepsNoDuplicates(selection: seq<string>, typeName: string)
    requires NoDuplicates(selection)
    ensures NoDuplicates(ToggledSelection(selection, typeName))
  {
    if typeName in selection {
      SubsequenceKeepsNoDuplicates(RemoveAll(selection, typeName), selection);
    }
  }

  /**
   * The argument of `onRarityFilter` after the slider moves to `values`: `null` when
   * the range is the whole scale `[1, maxRarity]`, otherwise its lower bound only.
   */
  function RarityFilterFor(values: RarityRange, maxRarity: int): (r: Option<int>)
    ensures r.None? <==> values == RarityRange(1, maxRarity)
    ensures r.Some? ==> r.value == values.lo
  {
    if values.lo == 1 && values.hi == maxRarity then None else Some(values.lo)
  }

  /** `hasActiveFilters`: some type selected, the range narrowed, or search text present. */
  function HasActiveFilters(selection: seq<string>, range: RarityRange, query: string, maxRarity: int): (b: bool)
    ensures !b <==> selection == [] && range == RarityRange(1, maxRarity) && query == ""
  {
    |selection| > 0 || range.lo != 1 || range.hi != maxRarity || |query| > 0
  }

  /** The index of the first star in `s`, or `|s|` if there is none. */
  function StarIndex(s: string): (k: nat)
    ensures k <= |s|
    ensures k < |s| ==> s[k] == Star
    ensures forall i :: 0 <= i < k ==> s[i] != Star
  {
    if s == [] then 0 else if s[0] == Star then 0 else 1 + StarIndex(s[1..])
  }

  /**
   * Reads a caption back: a numeral before the first star, then either nothing or
   * " - ", a second numeral naming another number, and a closing star. Any other
   * text is not a caption.
   */
  function ParseRarityLabel(caption: string): Option<RarityRange>
  {
    var k := StarIndex(caption);
    if k == |caption| then None else ParseCaptionParts(caption[..k], caption[k + 1..])
  }

  /** The text before the first star, and the text after it. */
  function ParseCaptionParts(first: string, rest: string): Option<RarityRange>
  {
    if !IsNumeral(first) then None
    else
      var lo := ParseInt(first);
      if rest == [] then Some(RarityRange(lo, lo))
      else if |rest| >= 4 && rest[..3] == " - " && rest[|rest| - 1] == Star
        && IsNumeral(rest[3..|rest| - 1]) && ParseInt(rest[3..|rest| - 1]) != lo
      then Some(RarityRange(lo, ParseInt(rest[3..|rest| - 1])))
      else None
  }

  /** A numeral has no star in it. */
  lemma NumeralHasNoStar(s: string)
    requires IsNumeral(s)
    ensures forall i :: 0 <= i < |s| ==> s[i] != Star
  {
    if s[0] == '-' {
      assert forall i :: 1 <= i < |s| ==> s[i] == s[1..][i - 1];
    }
  }

  /** Splitting `a★rest` at its first star gives back `a` and `rest` when `a` has no star. */
  lemma CaptionSplit(a: string, rest: string)
    requires forall i :: 0 <= i < |a| ==> a[i] != Star
    ensures StarIndex(a + [Star] + rest) == |a|
    ensures ParseRarityLabel(a + [Star] + rest) == ParseCaptionParts(a, rest)
  {
    var caption := a + [Star] + rest;
    assert caption[|a|] == Star;
    assert forall j :: 0 <= j < |a| ==> caption[j] == a[j];
    assert caption[..|a|] == a;
    assert caption[|a| + 1..] == rest;
  }

  /** `a★ - b★` for numerals of two different numbers parses back to the two numbers. */
  lemma RangeCaptionParts(a: string, b: string)
    requires IsNumeral(a) && IsNumeral(b) && ParseInt(a) != ParseInt(b)
    ensures StarIndex(a + [Star] + " - " + b + [Star]) == |a|
    ensures ParseRarityLabel(a + [Star] + " - " + b + [Star]) == Some(RarityRange(ParseInt(a), ParseInt(b)))
  {
    NumeralHasNoStar(a);
    CaptionSplit(a, " - " + b + [Star]);
    RangeTailParts(a, b);
    RangeCaptionShape(a, b);
  }

  lemma RangeCaptionShape(a: string, b: string)
    ensures a + [Star] + " - " + b + [Star] == a + [Star] + (" - " + b + [Star])
  {
  }

  /** After the first star, ` - b★` gives the upper end `b`. */
  lemma RangeTailParts(a: string, b: string)
    requires IsNumeral(a) && IsNumeral(b) && ParseInt(a) != ParseInt(b)
    ensures ParseCaptionParts(a, " - " + b + [Star]) == Some(RarityRange(ParseInt(a), ParseInt(b)))
  {
    var rest := " - " + b + [Star];
    assert rest[..3] == " - ";
    assert rest[3..|rest| - 1] == b;
  }

  /** `a★` for a numeral parses back to that number at both ends. */
  lemma SingleCaptionParts(a: string)
    requires IsNumeral(a)
    ensures StarIndex(a + [Star]) == |a|
    ensures ParseRarityLabel(a + [Star]) == Some(RarityRange(ParseInt(a), ParseInt(a)))
  {
    NumeralHasNoStar(a);
    CaptionSplit(a, []);
    assert a + [Star] + [] == a + [Star];
  }

  /**
   * The slider caption: `n★` for a single value, `a★ - b★` for a range. It has a
   * star only at its end exactly when both ends are equal, and parsing it gives
   * back the range, so it shows both ends faithfully.
   */
  function RarityLabel(range: RarityRange): (r: string)
    ensures |r| > 0 && r[|r| - 1] == Star
    ensures StarIndex(r) == |r| - 1 <==> range.lo == range.hi
    ensures ParseRarityLabel(r) == Some(range)
  {
    var a, b := IntToString(range.lo), IntToString(range.hi);
    if range.lo == range.hi then
      SingleCaptionParts(a);
      a + [Star]
    else
      RangeCaptionParts(a, b);
      a + [Star] + " - " + b + [Star]
  }
  /** The caption of a range is the only text that parses to that range. */
  lemma CaptionIsUnique(caption: string, range: RarityRange)
    requires ParseRarityLabel(caption) == Some(range)
    ensures caption == RarityLabel(range)
  {
    var k := StarIndex(caption);
    var a, rest := caption[..k], caption[k + 1..];
    assert caption == a + [Star] + rest;
    PartsAreUnique(a, rest, range);
  }

  /** Text with another separator, a padded numeral or a repeated end is no caption. */
  lemma MalformedCaptionsDoNotParse()
    ensures ParseRarityLabel("1★xyz10★") == None
    ensures ParseRarityLabel("01★") == None
    ensures ParseRarityLabel("3★ - 3★") == None
  {
    CaptionSplit("1", "xyz10★");
    assert "1" + [Star] + "xyz10★" == "1★xyz10★";
    assert ("xyz10★")[..3][0] == 'x';
    assert !IsNumeral("01");
    CaptionSplit("01", []);
    assert "01" + [Star] + [] == "01★";
    CaptionSplit("3", " - 3★");
    assert "3" + [Star] + " - 3★" == "3★ - 3★";
    assert (" - 3★")[3..4] == "3";
  }

  /** The two sides of the first star of a caption are fixed by the range it parses to. */
  lemma PartsAreUnique(a: string, rest: string, range: RarityRange)
    requires ParseCaptionParts(a, rest) == Some(range)
    ensures a + [Star] + rest == RarityLabel(range)
  {
    NumeralRoundTrip(a);
    if rest == [] {
      assert a + [Star] + rest == a + [Star];
    } else {
      var b := rest[3..|rest| - 1];
      NumeralRoundTrip(b);
      assert rest == " - " + b + [Star];
      RangeCaptionShape(a, b);
    }
  }



  /**
   * The most recent value passed to `onTypeFilter`, or `fallback` if there is none:
   * the value of a `TypeFilter` entry with no `TypeFilter` entry after it.
   */
  function LastTypeFilter(log: seq<Notification>, fallback: seq<string>): (r: seq<string>)
    ensures r == fallback || TypeFilter(r) in log
    ensures log != [] && log[|log| - 1].TypeFilter? ==> r == log[|log| - 1].types
  {
    if log == [] then fallback
    else if log[|log| - 1].TypeFilter? then log[|log| - 1].types
    else
      LastTypeFilter(log[..|log| - 1], fallback)
  }

  /**
   * The most recent value passed to `onRarityFilter`, or `fallback` if there is none:
   * the value of a `RarityFilter` entry with no `RarityFilter` entry after it.
   */
  function LastRarityFilter(log: seq<Notification>, fallback: Option<int>): (r: Option<int>)
    ensures r == fallback || RarityFilter(r) in log
    ensures log != [] && log[|log| - 1].RarityFilter? ==> r == log[|log| - 1].rarity
  {
    if log == [] then fallback
    else if log[|log| - 1].RarityFilter? then log[|log| - 1].rarity
    else
      LastRarityFilter(log[..|log| - 1], fallback)
  }

  /** A `TypeFilter` entry with no later `TypeFilter` entry determines `LastTypeFilter`. */
  lemma {:induction false} LatestTypeFilterWins(log: seq<Notification>, fallback: seq<string>, i: nat)
    requires i < |log| && log[i].TypeFilter?
    requires forall j :: i < j < |log| ==> !log[j].TypeFilter?
    ensures LastTypeFilter(log, fallback) == log[i].types
    decreases |log|
  {
    if i < |log| - 1 {
      var earlier := log[..|log| - 1];
      assert earlier[i] == log[i];
      assert forall j :: i < j < |earlier| ==> earlier[j] == log[j];
      LatestTypeFilterWins(earlier, fallback, i);
    }
  }

  /** Without any `TypeFilter` entry, `LastTypeFilter` is the fallback. */
  lemma {:induction false} NoTypeFilterKeepsFallback(log: seq<Notification>, fallback: seq<string>)
    requires forall j :: 0 <= j < |log| ==> !log[j].TypeFilter?
    ensures LastTypeFilter(log, fallback) == fallback
    decreases |log|
  {
    if log != [] {
      var earlier := log[..|log| - 1];
      assert forall j :: 0 <= j < |earlier| ==> earlier[j] == log[j];
      NoTypeFilterKeepsFallback(earlier, fallback);
    }
  }

  /** A `RarityFilter` entry with no later `RarityFilter` entry determines `LastRarityFilter`. */
  lemma {:induction false} LatestRarityFilterWins(log: seq<Notification>, fallback: Option<int>, i: nat)
    requires i < |log| && log[i].RarityFilter?
    requires forall j :: i < j < |log| ==> !log[j].RarityFilter?
    ensures LastRarityFilter(log, fallback) == log[i].rarity
    decreases |log|
  {
    if i < |log| - 1 {
      var earlier := log[..|log| - 1];
      assert earlier[i] == log[i];
      assert forall j :: i < j < |earlier| ==> earlier[j] == log[j];
      LatestRarityFilterWins(earlier, fallback, i);
    }
  }

  /** Without any `RarityFilter` entry, `LastRarityFilter` is the fallback. */
  lemma {:induction false} NoRarityFilterKeepsFallback(log: seq<Notification>, fallback: Option<int>)
    requires forall j :: 0 <= j < |log| ==> !log[j].RarityFilter?
    ensures LastRarityFilter(log, fallback) == fallback
    decreases |log|
  {
    if log != [] {
      var earlier := log[..|log| - 1];
      assert forall j :: 0 <= j < |earlier| ==> earlier[j] == log[j];
      NoRarityFilterKeepsFallback(earlier, fallback);
    }
  }

  /**
   * The component's state. `notifications` records, in order, every callback
   * invocation: what the parent has been told.
   */
  class FilterControls {
    const maxRarity: int
    var selectedTypes: seq<string>
    var rarityRange: RarityRange
    var searchQuery: string
    var notifications: seq<Notification>

    /**
     * The search text is never anything but empty, the selection has no duplicates,
     * and a parent that keeps the last value of each callback (starting from
     * `[]` and `null`) agrees with the controls.
     */
    ghost predicate Valid()
      reads this
    {
      && searchQuery == ""
      && NoDuplicates(selectedTypes)
      && LastTypeFilter(notifications, []) == selectedTypes
      && LastRarityFilter(notifications, None) == RarityFilterFor(rarityRange, maxRarity)
    }

    constructor (maxRarity: int)
      ensures Valid()
      ensures this.maxRarity == maxRarity
      ensures selectedTypes == [] && rarityRange == RarityRange(1, maxRarity) && searchQuery == ""
      ensures notifications == []
      ensures !ActiveFilters()
    {
      this.maxRarity := maxRarity;
      selectedTypes := [];
      rarityRange := RarityRange(1, maxRarity);
      searchQuery := "";
      notifications := [];
    }

    /** `hasActiveFilters`; with an empty search text, a selection or a narrowed range. */
    function ActiveFilters(): (b: bool)
      reads this
      ensures b == HasActiveFilters(selectedTypes, rarityRange, searchQuery, maxRarity)
      ensures searchQuery == "" ==> (b <==> |selectedTypes| > 0 || rarityRange != RarityRange(1, maxRarity))
    {
      HasActiveFilters(selectedTypes, rarityRange, searchQuery, maxRarity)
    }

    /** The slider caption of the current range; it parses back to that range. */
    function Label(): (caption: string)
      reads this
      ensures ParseRarityLabel(caption) == Some(rarityRange)
      ensures |caption| > 0 && caption[|caption| - 1] == Star
    {
      RarityLabel(rarityRange)
    }

    /** `handleTypeToggle`: the new selection becomes the state and is sent to `onTypeFilter`. */
    method HandleTypeToggle(typeName: string)
      requires Valid()
      modifies this
      ensures Valid()
      ensures selectedTypes == ToggledSelection(old(selectedTypes), typeName)
      ensures rarityRange == old(rarityRange) && searchQuery == old(searchQuery)
      ensures notifications == old(notifications) + [TypeFilter(selectedTypes)]
    {
      var newTypes := ToggledSelection(selectedTypes, typeName);
      ToggleKeepsNoDuplicates(selectedTypes, typeName);
      selectedTypes := newTypes;
      notifications := notifications + [TypeFilter(newTypes)];
      assert notifications[..|notifications| - 1] == old(notifications);
    }

    /**
     * `handleRarityChange`: the whole range becomes the state; `onRarityFilter`
     * receives `null` for the full scale and the lower bound otherwise.
     */
    method HandleRarityChange(values: RarityRange)
      requires Valid()
      modifies this
      ensures Valid()
      ensures rarityRange == values
      ensures selectedTypes == old(selectedTypes) && searchQuery == old(searchQuery)
      ensures notifications == old(notifications) + [RarityFilter(RarityFilterFor(values, maxRarity))]
    {
      rarityRange := values;
      notifications := notifications + [RarityFilter(RarityFilterFor(values, maxRarity))];
      assert notifications[..|notifications| - 1] == old(notifications);
    }

    /** `clearAllFilters`: back to the initial state; the parent is told `[]`, `null` and `""`. */
    method ClearAllFilters()
      requires Valid()
      modifies this
      ensures Valid()
      ensures selectedTypes == [] && rarityRange == RarityRange(1, maxRarity) && searchQuery == ""
      ensures notifications == old(notifications) + [TypeFilter([]), RarityFilter(None), Search("")]
      ensures !ActiveFilters()
    {
      selectedTypes := [];
      rarityRange := RarityRange(1, maxRarity);
      searchQuery := "";
      var sent := [TypeFilter([]), RarityFilter(None), Search("")];
      notifications := notifications + sent;
      ghost var n := |notifications|;
      assert notifications[..n - 1] == old(notifications) + sent[..2];
      assert notifications[..n - 1][..n - 2] == old(notifications) + sent[..1];
      assert LastTypeFilter(notifications, []) == LastTypeFilter(notifications[..n - 1], []);
      assert LastTypeFilter(notifications[..n - 1], []) == LastTypeFilter(notifications[..n - 1][..n - 2], []);
    }
  }
}
