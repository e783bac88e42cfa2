/** The key/description pairs shown in the legend bar at the bottom of the
    key browser: one set while browsing, another while editing the filter. */
module Legends {

  /** One legend item: the key as shown (e.g. "[ENTER]") and what it does. */
  datatype Entry = Entry(key: string, description: string)

  /** Which of the two legends the browser shows. */
  datatype Legend = MainLegend | FilterLegend

  const EditTranslation := Entry("[ENTER]", " Edit Translation ")
  const ScrollUp := Entry("[UP]", " Scroll up ")
  const ScrollDown := Entry("[DOWN]", " Scroll down ")
  const StartFilter := Entry("[F]", " Filter ")
  const ClearFilter := Entry("[C]", " Clear Filter ")
  const CopyKey := Entry("[K]", " Copy Key ")
  const QuitEntry := Entry("[Q]", " Quit ")

  const SaveFilter := Entry("[ENTER]", " Quit and save Filter ")
  const ChangeCriteria := Entry("[UP|DOWN]", " Change Filter Criteria ")
  const DiscardFilter := Entry("[ESC]", " Quit and clear Filter ")

  /** The entries every platform shows first, in this order. */
  const Common := [EditTranslation, ScrollUp, ScrollDown, StartFilter, ClearFilter]

  /** No key is advertised twice. */
  predicate DistinctKeys(entries: seq<Entry>)
  {
    forall i, j :: 0 <= i < j < |entries| ==> entries[i].key != entries[j].key
  }

  /** The browsing legend. The platform query is a parameter: `isDarwin` is
      true exactly when the host reports itself as Darwin. The list is built
      by appending, as the source does. */
  method MainEntries(isDarwin: bool) returns (result: seq<Entry>)
    ensures |result| == if isDarwin then 7 else 6
    ensures result[0] == EditTranslation
    ensures result[|result| - 1] == QuitEntry
    ensures result[..5] == Common
    ensures CopyKey in result <==> isDarwin
    ensures isDarwin ==> result[|result| - 2] == CopyKey
    ensures DistinctKeys(result)
  {
    result := [EditTranslation, ScrollUp, ScrollDown, StartFilter, ClearFilter];
    if isDarwin {
      result := result + [CopyKey];
    }
    result := result + [QuitEntry];
  }

  /** The legend shown while the filter is being edited. */
  function FilterEntries(): (r: seq<Entry>)
    ensures |r| == 3
    ensures r[0] == SaveFilter && r[1] == ChangeCriteria && r[2] == DiscardFilter
    ensures DistinctKeys(r)
  {
    [SaveFilter, ChangeCriteria, DiscardFilter]
  }
}
