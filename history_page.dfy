/** The analysis history page: code previews, deleting an entry from the
    loaded list, and the one entry whose details are expanded. */
module HistoryPage {
  import opened Wrappers
  import opened Sequences

  type EntryId = nat

  /** What the page needs of a loaded history row. */
  datatype HistoryItem = HistoryItem(id: EntryId, language: string, code: string)

  const DefaultMaxLength := 100
  const DeleteFailed := "Failed to delete analysis"

  /** `truncateCode(code, maxLength)`: the code itself when it fits, else its
      first `maxLength` characters followed by an ellipsis. */
  function TruncateCode(code: string, maxLength: nat): (r: string)
    ensures |code| <= maxLength ==> r == code
    ensures |code| > maxLength ==> |r| == maxLength + 3 && r[..maxLength] == code[..maxLength]
                                   && r[maxLength..] == "..."
  {
    if |code| <= maxLength then code else code[..maxLength] + "..."
  }

  /** The list after a successful delete: every row with another id, in
      order, each as often as it was listed. */
  function WithoutId(items: seq<HistoryItem>, id: EntryId): (r: seq<HistoryItem>)
    ensures forall i :: 0 <= i < |r| ==> r[i].id != id && r[i] in items
    ensures forall i :: 0 <= i < |items| && items[i].id != id ==> items[i] in r
    ensures forall a :: multiset(r)[a] == if a.id != id then multiset(items)[a] else 0
  {
    assert forall a :: multiset(Filter(items, (a: HistoryItem) => a.id != id))[a]
                       == if a.id != id then multiset(items)[a] else 0 by {
      forall a {
        FilterCount(items, (a: HistoryItem) => a.id != id, a);
      }
    }
    Filter(items, (a: HistoryItem) => a.id != id)
  }

  /** The rows kept after a delete keep their order. */
  lemma WithoutIdKeepsOrder(items: seq<HistoryItem>, id: EntryId)
    ensures Subsequence(WithoutId(items, id), items)
  {
    FilterIsSubsequence(items, (a: HistoryItem) => a.id != id);
  }

  /** Deleting an id that is not listed leaves the list as it was. */
  lemma WithoutAbsentId(items: seq<HistoryItem>, id: EntryId)
    requires forall i :: 0 <= i < |items| ==> items[i].id != id
    ensures WithoutId(items, id) == items
  {
    FilterKeepsAll(items, (a: HistoryItem) => a.id != id);
  }

  /** The preview of a code longer than the default limit is 103 characters. */
  lemma DefaultPreviewLength(code: string)
    requires |code| > DefaultMaxLength
    ensures |TruncateCode(code, DefaultMaxLength)| == 103
  {
  }

  /** The page state the handlers change. */
  class HistoryState {
    var analyses: seq<HistoryItem>
    var error: string
    var expandedId: Option<EntryId>

    /** The page once the history has loaded. */
    constructor(loaded: seq<HistoryItem>)
      ensures analyses == loaded && error == "" && expandedId == None
    {
      analyses := loaded;
      error := "";
      expandedId := None;
    }

    /** `handleDelete(id)`: the confirmation and the server's answer are
        parameters. Declined, nothing changes; a failed delete keeps the list
        and sets the error; a successful one drops the rows with that id. */
    method HandleDelete(id: EntryId, confirmed: bool, serverOk: bool)
      modifies this
      ensures expandedId == old(expandedId)
      ensures !confirmed ==> analyses == old(analyses) && error == old(error)
      ensures confirmed && !serverOk ==> analyses == old(analyses) && error == DeleteFailed
      ensures confirmed && serverOk ==> analyses == WithoutId(old(analyses), id) && error == old(error)
    {
      if !confirmed {
        return;
      }
      if serverOk {
        analyses := WithoutId(analyses, id);
      } else {
        error := DeleteFailed;
      }
    }

    /** A click on a row: the expanded row collapses, any other row becomes
        the only expanded one. */
    method ToggleExpanded(id: EntryId)
      modifies this
      ensures old(expandedId) == Some(id) ==> expandedId == None
      ensures old(expandedId) != Some(id) ==> expandedId == Some(id)
      ensures analyses == old(analyses) && error == old(error)
    {
      expandedId := if expandedId == Some(id) then None else Some(id);
    }
  }
}
