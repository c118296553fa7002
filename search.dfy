/** The plume search box of `src/components/method/search/index.jsx`:
    each item gets a search key `<location parts reversed>_<id>`, and picking
    a suggestion reads the id back out of its fourth `_`-separated segment.
    The trie that turns typed text into suggestions is a parameter; the React
    setters and the parent's callback become the list of calls a handler
    makes. */
module Search {
  import opened Wrappers
  import opened Text
  import opened Geo

  /** The calls a handler makes, in order. */
  datatype Call =
    | SetFromSearch(fromSearch: bool)
    | SetSearchOptions(options: seq<string>)
    | SelectVizItem(vizItemId: string)   // `onSelectedVizItemSearch(id)`

  function Reverse(parts: seq<string>): (r: seq<string>)
    ensures |r| == |parts| && forall i :: 0 <= i < |r| ==> r[i] == parts[|parts| - 1 - i]
  {
    seq(|parts|, i requires 0 <= i < |parts| => parts[|parts| - 1 - i])
  }

  function TrimAll(parts: seq<string>): (r: seq<string>)
    ensures |r| == |parts| && forall i :: 0 <= i < |r| ==> r[i] == Trim(parts[i])
  {
    seq(|parts|, i requires 0 <= i < |parts| => Trim(parts[i]))
  }

  /** `location?.split(',').reverse().map(trim).join('_')`, which a template
      literal shows as `undefined` when there is no location. */
  function LocationString(location: Option<string>): string {
    match location
    case None => "undefined"
    case Some(l) => Join(TrimAll(Reverse(Split(l, ','))), "_")
  }

  /** `id.split('_').join('-')`. */
  function IdString(id: string): (r: string)
    ensures r == ReplaceChar(id, '_', '-')
    ensures '_' !in r
  {
    JoinSplitReplaces(id, '_', '-');
    Join(Split(id, '_'), "-")
  }

  /** The search key of an item. */
  function SearchKey(item: VizItem): string {
    LocationString(item.location) + "_" + IdString(item.id)
  }

  /** `handleOnOptionClicked`: nothing for a null or empty pick; otherwise
      the fourth `_`-separated segment with `-` turned back into `_` is the
      id, `fromSearch` is set before the parent hears of it. A key with fewer
      than four segments makes `temp.split` throw (`Failure`). */
  function OnOptionClicked(clicked: Option<string>): (r: Result<seq<Call>, string>)
    ensures (clicked.None? || clicked.value == "") ==> r == Success([])
    ensures clicked.Some? && clicked.value != "" ==>
      (r.Failure? <==> |Split(clicked.value, '_')| < 4)
    ensures clicked.Some? && clicked.value != "" && r.Success? ==>
      r.value == [SetFromSearch(true), SelectVizItem(ReplaceChar(Split(clicked.value, '_')[3], '-', '_'))]
  {
    if clicked.None? || clicked.value == "" then Success([])
    else
      var parts := Split(clicked.value, '_');
      if |parts| < 4 then Failure("TypeError")
      else
        var temp := parts[3];
        JoinSplitReplaces(temp, '-', '_');
        Success([SetFromSearch(true), SelectVizItem(Join(Split(temp, '-'), "_"))])
  }

  /** `handleOnInputTextChange`: clearing the text resets `fromSearch`, and
      the trie's suggestions for the text become the options. */
  function OnInputTextChange(text: string, recommendations: string -> seq<string>): (calls: seq<Call>)
    ensures SetFromSearch(false) in calls <==> text == ""
    ensures |calls| >= 1 && calls[|calls| - 1] == SetSearchOptions(recommendations(text))
    ensures forall c :: c in calls ==> !c.SelectVizItem? && c != SetFromSearch(true)
  {
    (if text == "" then [SetFromSearch(false)] else []) + [SetSearchOptions(recommendations(text))]
  }

  /** The key of an item whose location has exactly three comma parts and no
      `_` splits into those three parts, trimmed and reversed, and the id
      written with `-`. */
  lemma SearchKeySegments(item: VizItem)
    requires item.location.Some? && |Split(item.location.value, ',')| == 3
    requires '_' !in item.location.value
    ensures Split(SearchKey(item), '_') ==
      TrimAll(Reverse(Split(item.location.value, ','))) + [ReplaceChar(item.id, '_', '-')]
  {
    var parts := TrimAll(Reverse(Split(item.location.value, ',')));
    var idString := IdString(item.id);
    LocationPartsLackUnderscore(item.location.value);
    JoinSnoc(parts, "_", idString);
    assert SearchKey(item) == Join(parts + [idString], "_");
    SplitJoin(parts + [idString], '_');
  }

  /** No trimmed part of a location without `_` contains `_`. */
  lemma LocationPartsLackUnderscore(loc: string)
    requires '_' !in loc
    ensures forall k :: 0 <= k < |Split(loc, ',')| ==> '_' !in TrimAll(Reverse(Split(loc, ',')))[k]
  {
    var raw := Split(loc, ',');
    var parts := TrimAll(Reverse(raw));
    forall k | 0 <= k < |parts| ensures '_' !in parts[k] {
      var j := |raw| - 1 - k;
      assert parts[k] == Trim(raw[j]);
      PartLacksChar(loc, ',', j, '_');
    }
  }

  /** A character missing from a string is missing from each of its parts. */
  lemma PartLacksChar(s: string, sep: char, k: nat, c: char)
    requires c !in s && k < |Split(s, sep)|
    ensures c !in Split(s, sep)[k]
  {
    if c in Split(s, sep)[k] {
      SplitPartChars(s, sep, k, c);
    }
  }

  /** Picking the key of such an item selects its id with every `-` turned
      into `_`: the id comes back exactly when it has no `-`. */
  lemma SearchRoundTrip(item: VizItem)
    requires item.location.Some? && |Split(item.location.value, ',')| == 3
    requires '_' !in item.location.value
    ensures OnOptionClicked(Some(SearchKey(item))) ==
      Success([SetFromSearch(true), SelectVizItem(ReplaceChar(ReplaceChar(item.id, '_', '-'), '-', '_'))])
    ensures (OnOptionClicked(Some(SearchKey(item))) ==
             Success([SetFromSearch(true), SelectVizItem(item.id)])) <==> '-' !in item.id
  {
    SearchKeySegments(item);
    var back := ReplaceChar(ReplaceChar(item.id, '_', '-'), '-', '_');
    if '-' in item.id {
      var i :| 0 <= i < |item.id| && item.id[i] == '-';
      assert back[i] == '_';
    } else {
      assert back == item.id;
    }
  }

  /** An item without a location has the key `undefined_<id>`, too short to
      be picked: selecting it throws. */
  lemma MissingLocationThrows(item: VizItem)
    requires item.location.None?
    ensures OnOptionClicked(Some(SearchKey(item))).Failure?
  {
    var idString := IdString(item.id);
    assert SearchKey(item) == Join(["undefined", idString], "_");
    SplitJoin(["undefined", idString], '_');
  }
}
