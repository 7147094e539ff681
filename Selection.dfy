/**
 The selection list of src/App.tsx as values: the updaters that the handlers
 pass to `setSelectedShortcuts`, the `filteredShortcuts` projection and the
 "all selected" predicates that drive the category checkbox.
 */
module Selection {
  import opened Seqs
  import opened Shortcuts
  import opened Grouping

  function NotEqual(x: string): string -> bool {
    y => y != x
  }

  /**
   `prev.filter((id) => id !== x)`: every occurrence of `x` removed, every
   other id kept as often as it occurs, in its order.
   */
  function Remove(prev: seq<string>, x: string): (r: seq<string>)
    ensures forall y :: y in r <==> y in prev && y != x
    ensures Subsequence(r, prev)
    ensures multiset(r) == multiset(prev)[x := 0]
  {
    FilterIsSubsequence(prev, NotEqual(x));
    FilterMultiset(prev, NotEqual(x));
    assert forall y :: multiset(Filter(prev, NotEqual(x)))[y] == multiset(prev)[x := 0][y];
    Filter(prev, NotEqual(x))
  }

  /**
   The updater of `toggleShortcut`: a selected id is removed (every
   occurrence, the others keeping their order), an unselected one appended.
   */
  function Toggle(prev: seq<string>, id: string): (r: seq<string>)
    ensures forall x :: x in r <==> (x in prev && x != id) || (x == id && id !in prev)
    ensures id in prev ==> Subsequence(r, prev)
    ensures id in prev ==> multiset(r) == multiset(prev)[id := 0]
    ensures id !in prev ==> r == prev + [id]
  {
    if id in prev then Remove(prev, id) else prev + [id]
  }

  /** Toggling keeps a duplicate-free selection duplicate-free. */
  lemma ToggleKeepsNoDup(prev: seq<string>, id: string)
    requires NoDup(prev)
    ensures NoDup(Toggle(prev, id))
  {
    if id in prev {
      FilterNoDup(prev, NotEqual(id));
    }
  }

  /**
   Toggling the same id twice restores which ids are selected; an id that was
   not selected leaves the list exactly as it was, while a selected one comes
   back at the end.
   */
  lemma ToggleTwice(prev: seq<string>, id: string)
    ensures forall x :: x in Toggle(Toggle(prev, id), id) <==> x in prev
    ensures id !in prev ==> Toggle(Toggle(prev, id), id) == prev
    ensures id in prev ==> Toggle(Toggle(prev, id), id) == Remove(prev, id) + [id]
  {
    if id !in prev {
      FilterConcat(prev, [id], NotEqual(id));
      FilterKeepsAll(prev, NotEqual(id));
    }
  }

  /**
   `categoryShortcuts` in `toggleCategory`: the ids of the current app's
   shortcuts of that category, in catalog order, or none without an app.
   */
  function CategoryIds(app: Option<ShortcutApp>, c: string): (r: seq<string>)
    ensures app.None? ==> r == []
    ensures forall x :: x in r <==> app.Some? && exists s :: s in app.value.shortcuts && s.category == c && s.id == x
  {
    if app.Some? then
      forall x ensures x in Ids(InCategory(app.value.shortcuts, c)) <==>
                       exists s :: s in InCategory(app.value.shortcuts, c) && s.id == x {
        IdsMembership(InCategory(app.value.shortcuts, c), x);
      }
      Ids(InCategory(app.value.shortcuts, c))
    else []
  }

  /** `ids.every((id) => selected.includes(id))`. */
  predicate AllSelected(ids: seq<string>, selected: seq<string>) {
    forall x :: x in ids ==> x in selected
  }

  /**
   `prev.filter((id) => !ids.includes(id))`: the ids of `ids` removed, every
   other id kept as often as it occurs, in its order.
   */
  function RemoveAll(prev: seq<string>, ids: seq<string>): (r: seq<string>)
    ensures forall y :: y in r <==> y in prev && y !in ids
    ensures Subsequence(r, prev)
    ensures forall y :: multiset(r)[y] == if y in ids then 0 else multiset(prev)[y]
  {
    FilterIsSubsequence(prev, NotIn(ids));
    FilterMultiset(prev, NotIn(ids));
    Filter(prev, NotIn(ids))
  }

  /**
   The updater of `toggleCategory` for the category's ids `ids`. When all of
   them are selected they are all removed, the rest keeping its order, and
   the category is then no longer all selected (unless it has no ids). Otherwise
   they are all added without duplicates, and the category becomes all
   selected: a partial category is completed, never cleared.
   */
  function ToggleCategory(prev: seq<string>, ids: seq<string>): (r: seq<string>)
    ensures AllSelected(ids, prev) ==> forall x :: x in r <==> x in prev && x !in ids
    ensures AllSelected(ids, prev) ==> Subsequence(r, prev)
    ensures AllSelected(ids, prev) ==> (AllSelected(ids, r) <==> ids == [])
    ensures !AllSelected(ids, prev) ==> NoDup(r)
    ensures !AllSelected(ids, prev) ==> forall x :: x in r <==> x in prev || x in ids
    ensures !AllSelected(ids, prev) ==> AllSelected(ids, r)
  {
    if AllSelected(ids, prev) then
      var r := RemoveAll(prev, ids);
      assert ids != [] ==> ids[0] in ids && ids[0] !in r;
      r
    else
      Dedup(prev + ids)
  }

  /**
   Adding a category to a duplicate-free selection keeps the previous list as
   it was, in front, and appends the category's missing ids after it.
   */
  lemma ToggleCategoryAppends(prev: seq<string>, ids: seq<string>)
    requires NoDup(prev) && !AllSelected(ids, prev)
    ensures ToggleCategory(prev, ids) == prev + Dedup(Filter(ids, NotIn(prev)))
  {
    DedupAppend(prev, ids);
  }

  /** `toggleCategory` keeps a duplicate-free selection duplicate-free. */
  lemma ToggleCategoryKeepsNoDup(prev: seq<string>, ids: seq<string>)
    requires NoDup(prev)
    ensures NoDup(ToggleCategory(prev, ids))
  {
    if AllSelected(ids, prev) {
      FilterNoDup(prev, NotIn(ids));
    }
  }

  /**
   A category with no shortcuts (or no current app) is vacuously all selected,
   and removing its ids leaves the selection exactly as it was.
   */
  lemma ToggleEmptyCategory(prev: seq<string>, ids: seq<string>)
    requires ids == []
    ensures ToggleCategory(prev, ids) == prev
  {
    FilterKeepsAll(prev, NotIn(ids));
  }

  /** A category's ids are ids of its app. */
  lemma CategoryIdsInApp(a: ShortcutApp, c: string)
    ensures forall x :: x in CategoryIds(Some(a), c) ==> x in Ids(a.shortcuts)
  {
    forall x | x in CategoryIds(Some(a), c) ensures x in Ids(a.shortcuts) {
      IdsMembership(a.shortcuts, x);
    }
  }

  /** A selection drawn from a set of ids stays within it when a category drawn from it is toggled. */
  lemma ToggleCategoryWithin(prev: seq<string>, ids: seq<string>, all: seq<string>)
    requires forall x :: x in prev ==> x in all
    requires forall x :: x in ids ==> x in all
    ensures forall x :: x in ToggleCategory(prev, ids) ==> x in all
  {
  }

  /** Toggling a category from a partial or empty selection of it, then again, clears it. */
  lemma ToggleCategoryTwice(prev: seq<string>, ids: seq<string>)
    requires !AllSelected(ids, prev)
    ensures forall x :: x in ToggleCategory(ToggleCategory(prev, ids), ids) <==> x in prev && x !in ids
  {
    var once := ToggleCategory(prev, ids);
    assert AllSelected(ids, once);
  }

  function IdIn(selected: seq<string>): Shortcut -> bool {
    (s: Shortcut) => s.id in selected
  }

  /**
   `filteredShortcuts`: the current app's shortcuts whose id is selected, in
   catalog order (not selection order); nothing without an app or without a
   selection.
   */
  function FilteredShortcuts(app: Option<ShortcutApp>, selected: seq<string>): (r: seq<Shortcut>)
    ensures app.None? || selected == [] ==> r == []
    ensures app.Some? ==> Subsequence(r, app.value.shortcuts)
    ensures app.Some? ==> forall s :: s in r <==> s in app.value.shortcuts && s.id in selected
  {
    match app
    case None => []
    case Some(a) =>
      FilterIsSubsequence(a.shortcuts, IdIn(selected));
      var r := Filter(a.shortcuts, IdIn(selected));
      assert |r| > 0 ==> r[0] in r;
      r
  }

  /**
   The projection depends only on which of the app's ids are selected: their
   order in the selection, duplicates, and selected ids that belong to no
   shortcut of the app make no difference.
   */
  lemma FilteredDependsOnlyOnAppIds(a: ShortcutApp, sel1: seq<string>, sel2: seq<string>)
    requires forall x :: x in Ids(a.shortcuts) ==> (x in sel1 <==> x in sel2)
    ensures FilteredShortcuts(Some(a), sel1) == FilteredShortcuts(Some(a), sel2)
  {
    forall s | s in a.shortcuts ensures IdIn(sel1)(s) == IdIn(sel2)(s) {
      IdsMembership(a.shortcuts, s.id);
    }
    FilterCongruent(a.shortcuts, IdIn(sel1), IdIn(sel2));
  }

  /** With every id of the app selected the projection is the whole app, in order. */
  lemma FilteredAllSelected(a: ShortcutApp)
    ensures FilteredShortcuts(Some(a), Ids(a.shortcuts)) == a.shortcuts
  {
    forall s | s in a.shortcuts ensures IdIn(Ids(a.shortcuts))(s) {
      IdsMembership(a.shortcuts, s.id);
    }
    FilterKeepsAll(a.shortcuts, IdIn(Ids(a.shortcuts)));
  }

  /**
   When every selected id belongs to the app, each of them is shown: the
   preview has one shortcut carrying it.
   */
  lemma SelectedIdsShown(a: ShortcutApp, selected: seq<string>)
    requires forall x :: x in selected ==> x in Ids(a.shortcuts)
    ensures forall x :: x in selected ==> exists s :: s in FilteredShortcuts(Some(a), selected) && s.id == x
  {
    forall x | x in selected ensures exists s :: s in FilteredShortcuts(Some(a), selected) && s.id == x {
      IdsMembership(a.shortcuts, x);
    }
  }

  /** `categorySelected`: every shortcut of a checklist group is selected. */
  predicate CategorySelected(group: seq<Shortcut>, selected: seq<string>) {
    forall s :: s in group ==> s.id in selected
  }

  /**
   The checklist's category checkbox is checked exactly when `toggleCategory`
   on that category takes its "remove" branch.
   */
  lemma CheckboxMatchesToggle(a: ShortcutApp, c: string, selected: seq<string>)
    ensures CategorySelected(InCategory(a.shortcuts, c), selected) <==> AllSelected(CategoryIds(Some(a), c), selected)
  {
    var group := InCategory(a.shortcuts, c);
    forall x ensures x in Ids(group) <==> exists s :: s in group && s.id == x {
      IdsMembership(group, x);
    }
  }
}
