/** The track-filter table: `generateTDAFilterItem` of `src/utils/index.js`,
    which names the six environment checkboxes of one identity filter, and
    the `TDA_FILTERS` table of `src/components/tracks-tab.jsx`, rendered as
    one row of such checkboxes per identity. */
module TdaFilters {
  import opened Wrappers

  /** The environments, in the order their checkboxes are listed. */
  const Suffixes: seq<string> := ["allenv", "air", "surface", "subsurface1", "land", "unknown"]

  /** The character that joins an identity to an environment. */
  const Separator: char := '-'

  /** One checkbox description, `{ value }`. */
  datatype FilterItem = FilterItem(value: string)

  /** `s` does not hold the separator. */
  predicate NoSeparator(s: string) {
    forall k :: 0 <= k < |s| ==> s[k] != Separator
  }

  lemma SuffixesHaveNoSeparator()
    ensures forall j :: 0 <= j < |Suffixes| ==> NoSeparator(Suffixes[j])
  {
    assert NoSeparator("allenv");
    assert NoSeparator("air");
    assert NoSeparator("surface");
    assert NoSeparator("subsurface1");
    assert NoSeparator("land");
    assert NoSeparator("unknown");
  }

  /** `generateTDAFilterItem`: one item per environment, in order. */
  function GenerateTDAFilterItem(id: string): (r: seq<FilterItem>)
    ensures |r| == |Suffixes| == 6
    ensures forall j :: 0 <= j < 6 ==> r[j].value == id + [Separator] + Suffixes[j]
  {
    [ FilterItem(id + "-allenv"),
      FilterItem(id + "-air"),
      FilterItem(id + "-surface"),
      FilterItem(id + "-subsurface1"),
      FilterItem(id + "-land"),
      FilterItem(id + "-unknown") ]
  }

  /** The last index of `c` in `s`, if any. */
  function LastIndexOf(s: string, c: char): (r: Option<nat>)
    ensures r.Some? ==> r.value < |s| && s[r.value] == c && forall k :: r.value < k < |s| ==> s[k] != c
    ensures r.None? ==> forall k :: 0 <= k < |s| ==> s[k] != c
  {
    if |s| == 0 then None
    else if s[|s| - 1] == c then Some(|s| - 1)
    else LastIndexOf(s[..|s| - 1], c)
  }

  /** The position of `x` in `xs`, if it is there. */
  function IndexOf(xs: seq<string>, x: string): (r: Option<nat>)
    ensures r.Some? ==> r.value < |xs| && xs[r.value] == x && forall k :: 0 <= k < r.value ==> xs[k] != x
    ensures r.None? ==> x !in xs
  {
    if |xs| == 0 then None
    else if xs[0] == x then Some(0)
    else match IndexOf(xs[1..], x)
      case None => None
      case Some(k) => Some(k + 1)
  }

  /** A checkbox name read back as its identity and the index of its
      environment: split at the last separator, and look the tail up among
      the environments. */
  function ParseFilterItem(value: string): Option<(string, nat)> {
    match LastIndexOf(value, Separator)
    case None => None
    case Some(p) =>
      match IndexOf(Suffixes, value[p + 1..])
      case None => None
      case Some(j) => Some((value[..p], j))
  }

  lemma SuffixesDistinct()
    ensures forall a, b :: 0 <= a < b < |Suffixes| ==> Suffixes[a] != Suffixes[b]
  {
  }

  /** A name joined from a head and a tail without separator splits back
      into the two at its last separator. */
  lemma SplitAtLastSeparator(head: string, tail: string)
    requires NoSeparator(tail)
    ensures var v := head + [Separator] + tail;
      && LastIndexOf(v, Separator) == Some(|head|)
      && v[..|head|] == head
      && v[|head| + 1..] == tail
  {
    var v := head + [Separator] + tail;
    assert v[|head|] == Separator;
    assert forall k :: |head| < k < |v| ==> v[k] == tail[k - |head| - 1];
    assert v[..|head|] == head;
    assert v[|head| + 1..] == tail;
  }

  /** Every name `generateTDAFilterItem` makes reads back as the identity
      and environment it was made from. */
  lemma ParseGenerated(id: string, j: nat)
    requires j < 6
    ensures ParseFilterItem(GenerateTDAFilterItem(id)[j].value) == Some((id, j))
  {
    SuffixesHaveNoSeparator();
    SplitAtLastSeparator(id, Suffixes[j]);
    SuffixesDistinct();
    assert IndexOf(Suffixes, Suffixes[j]) == Some(j);
  }

  /** Two checkbox names agree exactly when they name the same identity
      and the same environment. */
  lemma FilterItemsInjective(a: string, i: nat, b: string, j: nat)
    requires i < 6 && j < 6
    ensures GenerateTDAFilterItem(a)[i] == GenerateTDAFilterItem(b)[j] <==> a == b && i == j
  {
    ParseGenerated(a, i);
    ParseGenerated(b, j);
  }

  /** The six names of one identity are pairwise distinct. */
  lemma FilterItemsDistinct(id: string)
    ensures forall a, b :: 0 <= a < b < 6 ==> GenerateTDAFilterItem(id)[a] != GenerateTDAFilterItem(id)[b]
  {
    forall a, b | 0 <= a < b < 6
      ensures GenerateTDAFilterItem(id)[a] != GenerateTDAFilterItem(id)[b]
    {
      FilterItemsInjective(id, a, id, b);
    }
  }

  /** A row of `TDA_FILTERS`: the label shown and the identity. */
  datatype TdaFilter = TdaFilter(name: string, id: string)

  /** `TDA_FILTERS`, in order. */
  const TdaFilterTable: seq<TdaFilter> := [
    TdaFilter("All Id", "allid"),
    TdaFilter("Unknown", "unknown"),
    TdaFilter("Friend", "friend"),
    TdaFilter("Assume Friend", "asm-friend"),
    TdaFilter("Pending", "pending"),
    TdaFilter("Neutral", "neutral"),
    TdaFilter("Suspect", "suspect"),
    TdaFilter("Hostile", "hostile")
  ]

  /** The table has eight rows with pairwise distinct identities. */
  lemma FilterTableIds()
    ensures |TdaFilterTable| == 8
    ensures forall a, b :: 0 <= a < b < |TdaFilterTable| ==> TdaFilterTable[a].id != TdaFilterTable[b].id
  {
  }

  /** One rendered checkbox: its name and whether it shows checked. */
  datatype Checkbox = Checkbox(name: string, checked: bool)

  /** One rendered row: the filter's label and its checkboxes. */
  datatype Row = Row(title: string, boxes: seq<Checkbox>)

  /** A checkbox shows checked exactly when its name is among the selected
      names (`selectedFeatures.includes`). */
  function RenderCheckbox(item: FilterItem, selected: seq<string>): Checkbox {
    Checkbox(item.value, item.value in selected)
  }

  function RenderRow(f: TdaFilter, selected: seq<string>): (r: Row)
    ensures |r.boxes| == 6
  {
    var items := GenerateTDAFilterItem(f.id);
    Row(f.name, seq(6, c requires 0 <= c < 6 => RenderCheckbox(items[c], selected)))
  }

  /** `TracksTab`: one row per filter, in table order. */
  function RenderTracksTab(selected: seq<string>): (r: seq<Row>)
    ensures |r| == |TdaFilterTable|
  {
    seq(|TdaFilterTable|, i requires 0 <= i < |TdaFilterTable| => RenderRow(TdaFilterTable[i], selected))
  }

  /** The tab shows eight rows of six checkboxes; the checkbox in row `i`,
      column `c` is named after the row's identity and the `c`-th
      environment, and shows checked exactly when that name is selected. */
  lemma TracksTabLayout(selected: seq<string>)
    ensures var rows := RenderTracksTab(selected);
      && |rows| == 8
      && forall i, c :: 0 <= i < 8 && 0 <= c < 6 ==>
           && |rows[i].boxes| == 6
           && rows[i].title == TdaFilterTable[i].name
           && rows[i].boxes[c].name == TdaFilterTable[i].id + [Separator] + Suffixes[c]
           && (rows[i].boxes[c].checked <==> rows[i].boxes[c].name in selected)
  {
  }

  /** No two of the 48 checkboxes share a name. */
  lemma CheckboxNamesDistinct(selected: seq<string>)
    ensures var rows := RenderTracksTab(selected);
      forall i, c, i', c' :: 0 <= i < 8 && 0 <= c < 6 && 0 <= i' < 8 && 0 <= c' < 6 && (i, c) != (i', c') ==>
        rows[i].boxes[c].name != rows[i'].boxes[c'].name
  {
    var rows := RenderTracksTab(selected);
    FilterTableIds();
    forall i, c, i', c' | 0 <= i < 8 && 0 <= c < 6 && 0 <= i' < 8 && 0 <= c' < 6 && (i, c) != (i', c')
      ensures rows[i].boxes[c].name != rows[i'].boxes[c'].name
    {
      FilterItemsInjective(TdaFilterTable[i].id, c, TdaFilterTable[i'].id, c');
    }
  }
}
