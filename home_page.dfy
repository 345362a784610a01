/**
 * The club list page's checkbox filter (`resetDisplay`) and tag toggle
 * (`updateTag`) from frontend/pages/index.js.
 */
module HomePage {

  /** The club fields the filter reads; `tagIds` are the ids of the club's tags. */
  datatype Club = Club(size: int, applicationRequired: int, acceptingMembers: bool, tagIds: seq<int>)

  /** A selected checkbox: its value and the filter group ("Type", "Size" or "Application") it belongs to. */
  datatype SelectedTag = SelectedTag(value: int, name: string)

  /** `tags.findIndex(tag => tag.value === value) !== -1` within one group. */
  predicate HasValue(tags: seq<SelectedTag>, group: string, value: int) {
    exists i :: 0 <= i < |tags| && tags[i].name == group && tags[i].value == value
  }

  predicate NoneSelected(tags: seq<SelectedTag>, group: string) {
    forall i :: 0 <= i < |tags| ==> tags[i].name != group
  }

  /** `clubRightSize`; a helper of `FilterClubs`. */
  predicate RightSize(club: Club, tags: seq<SelectedTag>) {
    NoneSelected(tags, "Size") || HasValue(tags, "Size", club.size)
  }

  /**
   * `appRequired`: value 1 selects clubs without an application, 2 those with one, 3 those
   * accepting members; a helper of `FilterClubs`.
   */
  predicate RightApplication(club: Club, tags: seq<SelectedTag>) {
    NoneSelected(tags, "Application")
    || (HasValue(tags, "Application", 1) && club.applicationRequired != 1)
    || (HasValue(tags, "Application", 2) && club.applicationRequired == 1)
    || (HasValue(tags, "Application", 3) && club.acceptingMembers)
  }

  /** `rightTags`: some tag of the club is a selected Type; a helper of `FilterClubs`. */
  predicate RightTags(club: Club, tags: seq<SelectedTag>) {
    NoneSelected(tags, "Type") || exists j :: 0 <= j < |club.tagIds| && HasValue(tags, "Type", club.tagIds[j])
  }

  /** The filter predicate of `resetDisplay`; a helper of `FilterClubs`. */
  predicate KeepClub(club: Club, tags: seq<SelectedTag>) {
    RightSize(club, tags) && RightApplication(club, tags) && RightTags(club, tags)
  }

  /** `clubs.filter(club => ...)` */
  function FilterClubs(clubs: seq<Club>, tags: seq<SelectedTag>): (r: seq<Club>)
    ensures |r| <= |clubs|
    ensures forall c :: c in r <==> c in clubs && KeepClub(c, tags)
  {
    if clubs == [] then []
    else if KeepClub(clubs[0], tags) then [clubs[0]] + FilterClubs(clubs[1..], tags)
    else FilterClubs(clubs[1..], tags)
  }

  /** `r` is `s` with some elements left out, the rest in their original order. */
  predicate IsSubsequence<T(==)>(r: seq<T>, s: seq<T>) {
    if r == [] then true
    else if s == [] then false
    else if r[0] == s[0] then IsSubsequence(r[1..], s[1..])
    else IsSubsequence(r, s[1..])
  }

  /** The filter keeps the clubs' order. */
  lemma {:induction false} FilterPreservesOrder(clubs: seq<Club>, tags: seq<SelectedTag>)
    ensures IsSubsequence(FilterClubs(clubs, tags), clubs)
    decreases |clubs|
  {
    if clubs != [] {
      FilterPreservesOrder(clubs[1..], tags);
      if !KeepClub(clubs[0], tags) {
        SubsequenceDropHead(FilterClubs(clubs[1..], tags), clubs);
      }
    }
  }

  lemma {:induction false} SubsequenceDropHead<T>(r: seq<T>, s: seq<T>)
    requires s != [] && IsSubsequence(r, s[1..])
    ensures IsSubsequence(r, s)
    decreases |r| + |s|
  {
    if r != [] && r[0] == s[0] {
      SubsequenceSkip(r, s[1..]);
    }
  }

  /** A subsequence of a list also fits after dropping its own first element. */
  lemma {:induction false} SubsequenceSkip<T>(r: seq<T>, s: seq<T>)
    requires r != [] && IsSubsequence(r, s)
    ensures IsSubsequence(r[1..], s)
    decreases |r| + |s|
  {
    if s != [] {
      if r[0] == s[0] {
        if r[1..] != [] {
          SubsequenceSkip(r[1..], s[1..]);
          SubsequenceDropHead(r[1..], s);
        }
      } else {
        SubsequenceSkip(r, s[1..]);
        if r[1..] != [] {
          SubsequenceDropHead(r[1..], s);
        }
      }
    }
  }

  /** With nothing selected every club is shown. */
  lemma NoSelectionKeepsAll(clubs: seq<Club>)
    ensures FilterClubs(clubs, []) == clubs
  {
    if clubs != [] {
      NoSelectionKeepsAll(clubs[1..]);
    }
  }

  /** `selectedTags.findIndex(tag => tag.value === value && tag.name === name)`, -1 when absent. */
  function FindTag(tags: seq<SelectedTag>, value: int, name: string): (i: int)
    ensures -1 <= i < |tags|
    ensures i == -1 <==> forall k :: 0 <= k < |tags| ==> !(tags[k].value == value && tags[k].name == name)
    ensures i >= 0 ==> tags[i].value == value && tags[i].name == name
    ensures i >= 0 ==> forall k :: 0 <= k < i ==> !(tags[k].value == value && tags[k].name == name)
  {
    if tags == [] then -1
    else if tags[0].value == value && tags[0].name == name then 0
    else
      var j := FindTag(tags[1..], value, name);
      if j == -1 then -1 else j + 1
  }

  /**
   * The selection after `updateTag(tag, name)`: the first matching entry removed, or the tag
   * appended. A helper that `UpdateTag` is proved against; the toggle lemmas state what it does.
   */
  function Toggle(tags: seq<SelectedTag>, value: int, name: string): seq<SelectedTag> {
    var i := FindTag(tags, value, name);
    if i == -1 then tags + [SelectedTag(value, name)] else tags[..i] + tags[i + 1..]
  }

  /** Selecting a tag that was not selected and then clicking it again restores the selection. */
  lemma ToggleTwiceRestores(tags: seq<SelectedTag>, value: int, name: string)
    requires FindTag(tags, value, name) == -1
    ensures Toggle(Toggle(tags, value, name), value, name) == tags
  {
    var added := tags + [SelectedTag(value, name)];
    assert FindTag(added, value, name) == |tags| by {
      assert added[|tags|] == SelectedTag(value, name);
      forall k | 0 <= k < |tags| ensures !(added[k].value == value && added[k].name == name) {
        assert added[k] == tags[k];
      }
    }
    assert added[..|tags|] == tags;
  }

  /** A toggle adds or removes exactly one entry, and an unselected tag becomes selected. */
  lemma ToggleFlipsSelection(tags: seq<SelectedTag>, value: int, name: string)
    ensures var i := FindTag(tags, value, name);
      |Toggle(tags, value, name)| == if i == -1 then |tags| + 1 else |tags| - 1
    ensures FindTag(tags, value, name) == -1 ==> SelectedTag(value, name) in Toggle(tags, value, name)
  {
    var i := FindTag(tags, value, name);
    if i == -1 {
      assert Toggle(tags, value, name)[|tags|] == SelectedTag(value, name);
    }
  }

  /** A tag selected exactly once is no longer selected after a toggle. */
  lemma ToggleUnselectsSingleEntry(tags: seq<SelectedTag>, value: int, name: string, i: int)
    requires i == FindTag(tags, value, name) && i >= 0
    requires forall k :: 0 <= k < |tags| && tags[k] == SelectedTag(value, name) ==> k == i
    ensures SelectedTag(value, name) !in Toggle(tags, value, name)
  {
    var r := tags[..i] + tags[i + 1..];
    assert Toggle(tags, value, name) == r;
    forall p | 0 <= p < |r| ensures r[p] != SelectedTag(value, name) {
      if p < i {
        assert r[p] == tags[p];
      } else {
        assert r[p] == tags[p + 1];
      }
    }
  }

  /** The page's state: all clubs, the search text, the selection and the clubs on display. */
  class ClubListPage {
    const clubs: seq<Club>
    var nameInput: string
    var selectedTags: seq<SelectedTag>
    var displayClubs: seq<Club>

    constructor (allClubs: seq<Club>)
      ensures clubs == allClubs && nameInput == "" && selectedTags == [] && displayClubs == allClubs
    {
      clubs := allClubs;
      nameInput := "";
      selectedTags := [];
      displayClubs := allClubs;
    }

    /**
     * `updateTag(tag, name)` followed by the `resetDisplay` it triggers; `fuzzyMatches`
     * is what the fuzzy search returns for a non-empty `nameInput`.
     */
    method UpdateTag(value: int, name: string, fuzzyMatches: seq<Club>)
      modifies this
      ensures selectedTags == Toggle(old(selectedTags), value, name)
      ensures nameInput == old(nameInput)
      ensures displayClubs == FilterClubs(if nameInput == "" then clubs else fuzzyMatches, selectedTags)
    {
      var i := FindTag(selectedTags, value, name);
      if i == -1 {
        selectedTags := selectedTags + [SelectedTag(value, name)];
      } else {
        selectedTags := selectedTags[..i] + selectedTags[i + 1..];
      }
      var base := if nameInput == "" then clubs else fuzzyMatches;
      displayClubs := FilterClubs(base, selectedTags);
    }
  }
}
