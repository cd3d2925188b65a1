/** The history page: the list fetched from GET /api/history, narrowed by a
    case-insensitive search over question and answer, items removed after a
    successful DELETE, and a status chip per item. */
module HistoryComponent {
  import opened Common
  import HistorySchema

  const LoadErrorMessage: string := "Erreur lors du chargement de l'historique"
  const DeleteErrorMessage: string := "Erreur lors de la suppression"

  /** One item as the page receives it; any text field may be absent. */
  datatype Item = Item(id: RecordId, question: Option<string>, reponse: Option<string>, statut: Option<string>)

  /** `(text?.toLowerCase() || '').includes(term.toLowerCase())`. */
  predicate MentionsTerm(text: Option<string>, term: string) {
    Includes(Lower(OrEmpty(text)), Lower(term))
  }

  /** The search predicate: the term occurs in the question or in the answer,
      ignoring case. */
  predicate Shown(item: Item, term: string) {
    MentionsTerm(item.question, term) || MentionsTerm(item.reponse, term)
  }

  /** `filteredHistory`: the items the search keeps, in the list's order. */
  function FilteredHistory(history: seq<Item>, term: string): (shown: seq<Item>)
    ensures IsSubsequence(shown, history)
    ensures forall x :: x in shown <==> x in history && Shown(x, term)
    ensures forall x :: multiset(shown)[x] == if Shown(x, term) then multiset(history)[x] else 0
  {
    FilterCounts(history, (x: Item) => Shown(x, term));
    Filter(history, (x: Item) => Shown(x, term))
  }

  /** A field mentions the term exactly when the lowered term occurs at some
      position of the lowered field (an absent field is searched as ""). */
  lemma MentionsIffOccurs(text: Option<string>, term: string)
    ensures MentionsTerm(text, term) <==> exists i: nat :: OccursAt(Lower(OrEmpty(text)), Lower(term), i)
  {
    assert MentionsTerm(text, term) == Includes(Lower(OrEmpty(text)), Lower(term));
    IncludesIffOccurs(Lower(OrEmpty(text)), Lower(term));
  }

  /** An empty search keeps the whole list. */
  lemma EmptySearchKeepsAll(history: seq<Item>)
    ensures FilteredHistory(history, "") == history
  {
    forall x | x in history ensures Shown(x, "") {
      IncludesEmpty(Lower(OrEmpty(x.question)));
    }
    FilterKeepsAll(history, (x: Item) => Shown(x, ""));
  }

  /** Searching ignores the case of the term: typing it in capitals shows
      the same items. */
  lemma SearchIgnoresCase(history: seq<Item>, term: string)
    ensures FilteredHistory(history, Lower(term)) == FilteredHistory(history, term)
  {
    LowerIdempotent(term);
    FilterSameKeep(history, (x: Item) => Shown(x, Lower(term)), (x: Item) => Shown(x, term));
  }

  /** The list after deleting `id`: every item with another id, in order. */
  function Without(history: seq<Item>, id: RecordId): (rest: seq<Item>)
    ensures IsSubsequence(rest, history)
    ensures forall x :: x in rest <==> x in history && x.id != id
    ensures forall x :: multiset(rest)[x] == if x.id != id then multiset(history)[x] else 0
  {
    FilterCounts(history, (x: Item) => x.id != id);
    Filter(history, (x: Item) => x.id != id)
  }

  /** Deleting an id the list does not hold changes nothing. */
  lemma WithoutAbsent(history: seq<Item>, id: RecordId)
    requires forall x :: x in history ==> x.id != id
    ensures Without(history, id) == history
  {
    FilterKeepsAll(history, (x: Item) => x.id != id);
  }

  datatype ChipColor = Success | ErrorColor

  /** The status chip's caption (the `label` prop) and colour. */
  datatype Chip = Chip(caption: string, color: ChipColor)

  /** `getStatusChip`: "error" gets the error chip; every other status, the
      absent one included, falls back to the "completed" chip. */
  function StatusChip(status: Option<string>): (chip: Chip)
    ensures chip.caption == "Erreur" <==> status == Some("error")
    ensures chip.caption == "Erreur" || chip.caption == "Terminé"
  {
    if status == Some("error") then Chip("Erreur", ErrorColor) else Chip("Terminé", Success)
  }

  /** None of the statuses a history record can hold is "error", so every
      record the backend stores, including one still "en_cours", is shown as
      completed. */
  lemma SchemaStatusesShowCompleted(s: HistorySchema.Status)
    ensures StatusChip(Some(HistorySchema.StatusName(s))) == Chip("Terminé", Success)
  {
  }

  /** The page's state. */
  class HistoryState {
    var history: seq<Item>
    var loading: bool
    var error: string
    var searchTerm: string

    constructor ()
      ensures history == [] && loading && error == "" && searchTerm == ""
    {
      history := [];
      loading := true;
      error := "";
      searchTerm := "";
    }

    /** The list on screen. */
    function Visible(): (shown: seq<Item>)
      reads this
      ensures IsSubsequence(shown, history)
    {
      FilteredHistory(history, searchTerm)
    }

    /** `fetchHistory`, given the GET's outcome (None when it throws): the
        list is replaced by the response, or kept with the load error set;
        either way loading ends. */
    method FetchHistory(response: Option<seq<Item>>)
      modifies this
      ensures response.Some? ==> history == response.value && error == old(error)
      ensures response.None? ==> history == old(history) && error == LoadErrorMessage
      ensures !loading && searchTerm == old(searchTerm)
    {
      if response.Some? {
        history := response.value;
      } else {
        error := LoadErrorMessage;
      }
      loading := false;
    }

    /** `handleDelete`, given whether the DELETE succeeded: on success the
        items with that id leave the list and the others keep their order;
        on failure (a 404 included) the list stays and the error is set. */
    method HandleDelete(id: RecordId, deleted: bool)
      modifies this
      ensures deleted ==> history == Without(old(history), id) && error == old(error)
      ensures !deleted ==> history == old(history) && error == DeleteErrorMessage
      ensures loading == old(loading) && searchTerm == old(searchTerm)
    {
      if deleted {
        history := Filter(history, (x: Item) => x.id != id);
      } else {
        error := DeleteErrorMessage;
      }
    }
  }
}
