/**
 * The glossary's single-selection expansion (`Glossary` in src/learning/Components.tsx).
 * The component keeps the id of the one expanded term, or nothing; clicking a term
 * collapses it when it is the expanded one and otherwise expands it instead.
 */
module Glossary {
  import opened Wrappers

  /** No term is expanded when the glossary first renders. */
  const InitialSelection: Option<string> := None

  /** A term's card shows its definition exactly when its id is the selection. */
  predicate IsExpanded(selected: Option<string>, id: string) {
    selected == Some(id)
  }

  /** The click handler of the term with id `id`: the selection after the click. */
  function Toggle(selected: Option<string>, id: string): (next: Option<string>)
    ensures IsExpanded(next, id) <==> !IsExpanded(selected, id)
    ensures forall other :: other != id ==> !IsExpanded(next, other)
  {
    if selected == Some(id) then None else Some(id)
  }

  /** The positions, in the list of term ids, of the cards that are expanded. */
  function ExpandedTerms(ids: seq<string>, selected: Option<string>): set<nat> {
    set i: nat | i < |ids| && IsExpanded(selected, ids[i])
  }

  predicate DistinctIds(ids: seq<string>) {
    forall i, j :: 0 <= i < j < |ids| ==> ids[i] != ids[j]
  }

  /** The ids of the page's glossary terms, in display order. */
  const GlossaryIds: seq<string> := ["1", "2", "3", "4"]

  /** The page's glossary ids are distinct, so the lemmas below apply to it. */
  lemma GlossaryIdsDistinct()
    ensures DistinctIds(GlossaryIds)
  {
  }

  /** No card is expanded when the glossary first renders. */
  lemma InitiallyNothingExpanded(ids: seq<string>)
    ensures ExpandedTerms(ids, InitialSelection) == {}
  {
  }

  /** With distinct ids, at most one card is expanded, whatever the selection. */
  lemma AtMostOneExpanded(ids: seq<string>, selected: Option<string>)
    requires DistinctIds(ids)
    ensures |ExpandedTerms(ids, selected)| <= 1
  {
    var e := ExpandedTerms(ids, selected);
    if e != {} {
      var k :| k in e;
      assert e == {k} by {
        forall j | j in e ensures j == k {
          assert ids[j] == selected.value == ids[k];
        }
      }
    }
  }

  /** Clicking the term at position `k` leaves exactly that card expanded, or none if it was the expanded one. */
  lemma ClickTerm(ids: seq<string>, selected: Option<string>, k: nat)
    requires DistinctIds(ids) && k < |ids|
    ensures ExpandedTerms(ids, Toggle(selected, ids[k]))
            == if IsExpanded(selected, ids[k]) then {} else {k}
  {
  }

  /**
   * Clicking the same term twice restores the selection when it was that term or none;
   * when another term was expanded, the two clicks leave nothing expanded.
   */
  lemma ToggleTwice(selected: Option<string>, id: string)
    ensures selected == None || selected == Some(id) ==> Toggle(Toggle(selected, id), id) == selected
    ensures selected.Some? && selected.value != id ==> Toggle(Toggle(selected, id), id) == None
  {
  }
}
