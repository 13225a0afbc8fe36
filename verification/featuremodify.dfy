/** The track map of `src/FeatureModify.jsx`: clicked points tagged with the
    current mode, the icon style chosen from the mode, the list of checked
    filter names kept by the checkbox handler, and `showPoint`, which gives
    a feature its mode's style exactly when its mode is in that list and
    clears the style of every other feature. */
module FeatureModify {
  import opened Wrappers
  import opened Geometry
  import TdaFilters

  /** The icon sources `generateStyle` chooses between. */
  const AvatarSrc: string := "https://avatars.githubusercontent.com/u/98297487?v=4"
  const ProfileSrc: string := "/profile.jpg"

  /** The icon size, in pixels. */
  const IconSize: nat := 50

  /** The mode the page starts in, and the one that gets the avatar icon. */
  const AllIdAllEnv: string := "allid-allenv"
  /** The other mode a button can select. */
  const UnknownAir: string := "unknown-air"

  /** An icon style: its image source and size. */
  datatype Style = Style(src: string, width: nat, height: nat)

  /** A point of the vector layer: its place, its `mode` property (absent on
      the feature the page starts with) and its own style (`null` when
      cleared, in which case the layer's style applies). */
  datatype Track = Track(coord: Coord, mode: Option<string>, style: Option<Style>)

  /** `generateStyle`. */
  function GenerateStyle(mode: string): (r: Style)
    ensures r.width == IconSize && r.height == IconSize
    ensures r.src == AvatarSrc <==> mode == AllIdAllEnv
    ensures r.src == AvatarSrc || r.src == ProfileSrc
  {
    Style(if mode == AllIdAllEnv then AvatarSrc else ProfileSrc, IconSize, IconSize)
  }

  /** Two modes get the same style exactly when both or neither are
      "allid-allenv". */
  lemma GenerateStyleSeparatesModes(a: string, b: string)
    ensures GenerateStyle(a) == GenerateStyle(b) <==> (a == AllIdAllEnv <==> b == AllIdAllEnv)
  {
    assert AvatarSrc != ProfileSrc by {
      assert |AvatarSrc| != |ProfileSrc|;
    }
  }

  /** The filter of `showPoint`: the feature's mode is among the names. */
  predicate Selected(t: Track, names: seq<string>) {
    t.mode.Some? && t.mode.value in names
  }

  /** The restyling `showPoint` gives one feature. */
  function ShowOne(t: Track, names: seq<string>): Track {
    if Selected(t, names) then t.(style := Some(GenerateStyle(t.mode.value)))
    else t.(style := None)
  }

  /** `showPoint`: restyle every feature of the layer, in order. */
  function ShowPoint(tracks: seq<Track>, names: seq<string>): (r: seq<Track>)
    ensures |r| == |tracks|
    ensures forall i :: 0 <= i < |tracks| ==> r[i] == ShowOne(tracks[i], names)
  {
    if |tracks| == 0 then []
    else ShowPoint(tracks[..|tracks| - 1], names) + [ShowOne(tracks[|tracks| - 1], names)]
  }

  /** `showPoint` adds and removes no feature and moves none; a feature
      keeps a style of its own exactly when its mode is in the list, and it
      is then the style of that mode. */
  lemma ShowPointStylesSelected(tracks: seq<Track>, names: seq<string>)
    ensures var r := ShowPoint(tracks, names);
      && |r| == |tracks|
      && forall i :: 0 <= i < |tracks| ==>
           && r[i].coord == tracks[i].coord
           && r[i].mode == tracks[i].mode
           && (r[i].style.Some? <==> tracks[i].mode.Some? && tracks[i].mode.value in names)
           && (r[i].style.Some? ==> r[i].style == Some(GenerateStyle(tracks[i].mode.value)))
  {
  }

  /** The styles given depend on which names are in the list, not on
      their order or repetition. */
  lemma ShowPointReadsNameSet(tracks: seq<Track>, names: seq<string>, names': seq<string>)
    requires forall n :: n in names <==> n in names'
    ensures ShowPoint(tracks, names) == ShowPoint(tracks, names')
  {
    var r, r' := ShowPoint(tracks, names), ShowPoint(tracks, names');
    assert forall i :: 0 <= i < |tracks| ==> r[i] == r'[i];
  }

  /** Applying the same list twice styles the features as applying it
      once does. */
  lemma ShowPointIdempotent(tracks: seq<Track>, names: seq<string>)
    ensures ShowPoint(ShowPoint(tracks, names), names) == ShowPoint(tracks, names)
  {
    var once := ShowPoint(tracks, names);
    var twice := ShowPoint(once, names);
    forall i | 0 <= i < |tracks|
      ensures twice[i] == once[i]
    {
      assert Selected(once[i], names) == Selected(tracks[i], names);
    }
  }

  /** The feature the page starts with has no mode, so every list clears
      its style. */
  lemma ModelessTrackUnstyled(t: Track, names: seq<string>)
    requires t.mode.None?
    ensures ShowPoint([t], names) == [t.(style := None)]
  {
  }

  /** Every occurrence of `name` left out, the rest in order. */
  function RemoveAll(names: seq<string>, name: string): (r: seq<string>)
    ensures name !in r
    ensures forall n :: n != name ==> (n in r <==> n in names)
    ensures forall n :: n != name ==> multiset(r)[n] == multiset(names)[n]
    ensures |r| <= |names|
  {
    if |names| == 0 then []
    else
      assert names == [names[0]] + names[1..];
      if names[0] == name then RemoveAll(names[1..], name)
      else [names[0]] + RemoveAll(names[1..], name)
  }

  /** `xs` is `ys` with some elements left out, the rest in their order. */
  predicate Subsequence(xs: seq<string>, ys: seq<string>)
    decreases |ys|
  {
    if |xs| == 0 then true
    else if |ys| == 0 then false
    else (xs[0] == ys[0] && Subsequence(xs[1..], ys[1..])) || Subsequence(xs, ys[1..])
  }

  /** Removing a name keeps the other names in their order. */
  lemma {:induction false} RemoveAllKeepsOrder(names: seq<string>, name: string)
    ensures Subsequence(RemoveAll(names, name), names)
  {
    if |names| > 0 {
      RemoveAllKeepsOrder(names[1..], name);
      var rest := RemoveAll(names[1..], name);
      if names[0] != name {
        assert RemoveAll(names, name) == [names[0]] + rest;
        assert ([names[0]] + rest)[1..] == rest;
      }
    }
  }

  /** Removing a name that is not there changes nothing. */
  lemma {:induction false} RemoveAllAbsent(names: seq<string>, name: string)
    requires name !in names
    ensures RemoveAll(names, name) == names
  {
    if |names| > 0 {
      assert names[1..] + [] == names[1..];
      RemoveAllAbsent(names[1..], name);
      assert names == [names[0]] + names[1..];
    }
  }

  /** Removing a name from a list that ends with it, added once more,
      gives what removing it from the list before gives. */
  lemma {:induction false} RemoveAllAppended(names: seq<string>, name: string)
    ensures RemoveAll(names + [name], name) == RemoveAll(names, name)
  {
    if |names| == 0 {
      assert RemoveAll([name], name) == RemoveAll([], name);
    } else {
      assert (names + [name])[1..] == names[1..] + [name];
      RemoveAllAppended(names[1..], name);
    }
  }

  /** The state the checkboxes drive: the checked names in the order they
      were checked, and the layer's features. */
  datatype FilterState = FilterState(selected: seq<string>, tracks: seq<Track>)

  /** `onInputCheckboxChange`: a checked box appends its name (a name
      already there is added again); an unchecked box removes every copy of
      its name. Either way `showPoint` is applied with the new list. */
  function OnInputCheckboxChange(st: FilterState, name: string, checked: bool): (r: FilterState)
    ensures checked ==>
      && |r.selected| == |st.selected| + 1
      && r.selected[..|st.selected|] == st.selected
      && r.selected[|st.selected|] == name
    ensures !checked ==> name !in r.selected && Subsequence(r.selected, st.selected)
    ensures !checked ==> forall n :: n != name ==> multiset(r.selected)[n] == multiset(st.selected)[n]
    ensures forall n :: n != name ==> (n in r.selected <==> n in st.selected)
    ensures r.tracks == ShowPoint(st.tracks, r.selected)
  {
    var selected := if checked then st.selected + [name] else RemoveAll(st.selected, name);
    RemoveAllKeepsOrder(st.selected, name);
    FilterState(selected, ShowPoint(st.tracks, selected))
  }

  /** Checking a box gives the features of its name their style, besides
      those styled before; unchecking clears exactly those. */
  lemma CheckboxChangeStyles(st: FilterState, name: string, checked: bool)
    ensures var r := OnInputCheckboxChange(st, name, checked);
      forall i :: 0 <= i < |st.tracks| ==>
        (r.tracks[i].style.Some? <==>
           st.tracks[i].mode.Some? &&
           (if st.tracks[i].mode.value == name then checked else st.tracks[i].mode.value in st.selected))
  {
  }

  /** Checking a box that was not checked and unchecking it again leaves
      the list as it was. */
  lemma CheckThenUncheck(st: FilterState, name: string)
    requires name !in st.selected
    ensures var checkedSt := OnInputCheckboxChange(st, name, true);
      OnInputCheckboxChange(checkedSt, name, false).selected == st.selected
  {
    RemoveAllAppended(st.selected, name);
    RemoveAllAbsent(st.selected, name);
  }

  /** The click handler: a point at the clicked coordinate, tagged with the
      current mode and given that mode's style, added to the layer. */
  function OnMapClick(tracks: seq<Track>, coordinate: Coord, selectedMode: string): (r: seq<Track>)
    ensures |r| == |tracks| + 1 && r[..|tracks|] == tracks
    ensures r[|tracks|].mode == Some(selectedMode) && r[|tracks|].coord == coordinate
    ensures r[|tracks|].style == Some(GenerateStyle(selectedMode))
  {
    tracks + [Track(coordinate, Some(selectedMode), Some(GenerateStyle(selectedMode)))]
  }

  /** A clicked point is tagged with the current mode, and the next
      `showPoint` keeps its style exactly when that mode is in the list. */
  lemma ClickedTrackFollowsFilter(tracks: seq<Track>, coordinate: Coord, selectedMode: string, names: seq<string>)
    ensures var r := ShowPoint(OnMapClick(tracks, coordinate, selectedMode), names);
      && r[|tracks|].mode == Some(selectedMode)
      && (r[|tracks|].style.Some? <==> selectedMode in names)
  {
  }

  /** Both modes the buttons select are names of checkboxes of the table:
      the first environment of "allid" and the second of "unknown". */
  lemma ModesHaveCheckboxes()
    ensures AllIdAllEnv == TdaFilters.GenerateTDAFilterItem(TdaFilters.TdaFilterTable[0].id)[0].value
    ensures UnknownAir == TdaFilters.GenerateTDAFilterItem(TdaFilters.TdaFilterTable[1].id)[1].value
  {
  }
}
