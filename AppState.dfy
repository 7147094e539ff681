/**
 The state of the `App` component of src/App.tsx as an object: the catalog,
 the title, the chosen app, page size and theme, and the list of selected
 shortcut ids, with the handlers that change them. Each handler is one state
 update; the selection updaters are the functions of the Selection module.
 */
module AppState {
  import opened Seqs
  import opened Shortcuts
  import opened Grouping
  import opened Selection
  import opened Preview
  import opened Export

  const DefaultTitle := "Keyboard Shortcuts"
  const DefaultApp := "figma"

  class App {
    /** The static catalog the app chooses from. */
    const apps: seq<ShortcutApp>
    var title: string
    var selectedApp: string
    var pageSize: PageSize
    var theme: Theme
    var selectedShortcuts: seq<string>

    /** The catalog has unique ids per app, and no id is selected twice. */
    ghost predicate Valid()
      reads this
    {
      CatalogWellFormed(apps) && NoDup(selectedShortcuts)
    }

    /**
     Every selected id belongs to the current app (when there is one): no id
     of another app survives an app switch.
     */
    ghost predicate Scoped()
      reads this
    {
      CurrentApp().Some? ==> forall x :: x in selectedShortcuts ==> x in Ids(CurrentApp().value.shortcuts)
    }

    /** `currentApp`: a catalog app with the selected id, or none when no app has it. */
    function CurrentApp(): (r: Option<ShortcutApp>)
      reads this
      ensures r.None? <==> forall i :: 0 <= i < |apps| ==> apps[i].id != selectedApp
      ensures r.Some? ==> r.value in apps && r.value.id == selectedApp
    {
      FindApp(apps, selectedApp)
    }

    /**
     `filteredShortcuts`: what the preview is given, exactly the current
     app's shortcuts whose id is selected.
     */
    function FilteredShortcuts(): (r: seq<Shortcut>)
      reads this
      ensures forall s :: s in r <==> CurrentApp().Some? && s in CurrentApp().value.shortcuts && s.id in selectedShortcuts
    {
      Selection.FilteredShortcuts(CurrentApp(), selectedShortcuts)
    }

    /** With the selection scoped to the current app, every selected id is shown in the preview. */
    lemma ScopedSelectionShown()
      requires Scoped() && CurrentApp().Some?
      ensures forall x :: x in selectedShortcuts ==> exists s :: s in FilteredShortcuts() && s.id == x
    {
      SelectedIdsShown(CurrentApp().value, selectedShortcuts);
    }

    /** Whether the checklist's checkbox of category `c` is ticked. */
    predicate CategoryChecked(c: string)
      reads this
    {
      CurrentApp().Some? && CategorySelected(InCategory(CurrentApp().value.shortcuts, c), selectedShortcuts)
    }

    /**
     The first render: the default title, app, page size and theme, and
     every shortcut of the default app selected (the reset runs on mount).
     */
    constructor (catalog: seq<ShortcutApp>)
      requires CatalogWellFormed(catalog)
      ensures Valid() && Scoped()
      ensures apps == catalog && title == DefaultTitle && selectedApp == DefaultApp
      ensures pageSize == A4 && theme == Modern
      ensures CurrentApp().None? ==> selectedShortcuts == []
      ensures CurrentApp().Some? ==> selectedShortcuts == Ids(CurrentApp().value.shortcuts)
      ensures CurrentApp().Some? ==> FilteredShortcuts() == CurrentApp().value.shortcuts
    {
      apps := catalog;
      title := DefaultTitle;
      selectedApp := DefaultApp;
      pageSize := A4;
      theme := Modern;
      var found := FindApp(catalog, DefaultApp);
      FoundAppWellFormed(catalog, DefaultApp);
      if found.Some? {
        selectedShortcuts := Ids(found.value.shortcuts);
        FilteredAllSelected(found.value);
      } else {
        selectedShortcuts := [];
      }
    }

    /**
     Choosing an app. The reset effect runs only when the id changes, and then
     selects every shortcut of the new app; an id that names no app leaves the
     selection as it was.
     */
    method SelectApp(id: string)
      requires Valid()
      modifies this
      ensures Valid()
      ensures id != old(selectedApp) || old(Scoped()) ==> Scoped()
      ensures selectedApp == id
      ensures title == old(title) && pageSize == old(pageSize) && theme == old(theme)
      ensures id != old(selectedApp) && CurrentApp().Some? ==> selectedShortcuts == Ids(CurrentApp().value.shortcuts)
      ensures id != old(selectedApp) && CurrentApp().Some? ==> FilteredShortcuts() == CurrentApp().value.shortcuts
      ensures id == old(selectedApp) || CurrentApp().None? ==> selectedShortcuts == old(selectedShortcuts)
    {
      var changed := id != selectedApp;
      selectedApp := id;
      var found := FindApp(apps, id);
      FoundAppWellFormed(apps, id);
      if changed && found.Some? {
        selectedShortcuts := Ids(found.value.shortcuts);
        FilteredAllSelected(found.value);
      }
    }

    /**
     `toggleShortcut`: the selection becomes `Toggle` of the old one, and the
     preview gains or loses exactly the shortcut with that id.
     */
    method ToggleShortcut(id: string)
      requires Valid()
      modifies this
      ensures Valid()
      ensures selectedShortcuts == Toggle(old(selectedShortcuts), id)
      ensures old(Scoped()) && (CurrentApp().None? || id in Ids(CurrentApp().value.shortcuts)) ==> Scoped()
      ensures selectedApp == old(selectedApp) && title == old(title)
      ensures pageSize == old(pageSize) && theme == old(theme)
      ensures forall s :: s in FilteredShortcuts() <==>
                (s in old(FilteredShortcuts()) && s.id != id) ||
                (CurrentApp().Some? && s in CurrentApp().value.shortcuts && s.id == id && id !in old(selectedShortcuts))
    {
      ToggleKeepsNoDup(selectedShortcuts, id);
      selectedShortcuts := Toggle(selectedShortcuts, id);
    }

    /**
     `toggleCategory`: the selection becomes `ToggleCategory` of the old one
     with the current app's ids of category `c`; a category that has
     shortcuts has its checkbox flipped.
     */
    method ToggleCategory(c: string)
      requires Valid()
      modifies this
      ensures Valid()
      ensures selectedShortcuts == Selection.ToggleCategory(old(selectedShortcuts), CategoryIds(CurrentApp(), c))
      ensures old(Scoped()) ==> Scoped()
      ensures selectedApp == old(selectedApp) && title == old(title)
      ensures pageSize == old(pageSize) && theme == old(theme)
      ensures CurrentApp().Some? && InCategory(CurrentApp().value.shortcuts, c) != [] ==>
                CategoryChecked(c) == !old(CategoryChecked(c))
    {
      var ids := CategoryIds(CurrentApp(), c);
      var app := CurrentApp();
      ToggleCategoryKeepsNoDup(selectedShortcuts, ids);
      var next := Selection.ToggleCategory(selectedShortcuts, ids);
      if app.Some? {
        CategoryIdsInApp(app.value, c);
        if Scoped() {
          ToggleCategoryWithin(selectedShortcuts, ids, Ids(app.value.shortcuts));
        }
        CheckboxMatchesToggle(app.value, c, selectedShortcuts);
        CheckboxMatchesToggle(app.value, c, next);
        var group := InCategory(app.value.shortcuts, c);
        assert group != [] ==> ids != [] by {
          if group != [] {
            assert Ids(group)[0] in ids;
          }
        }
      }
      selectedShortcuts := next;
    }

    /** `selectAll`: every shortcut of the current app; nothing changes without one. */
    method SelectAll()
      requires Valid()
      modifies this
      ensures Valid()
      ensures Scoped()
      ensures CurrentApp().Some? ==> selectedShortcuts == Ids(CurrentApp().value.shortcuts)
      ensures CurrentApp().Some? ==> FilteredShortcuts() == CurrentApp().value.shortcuts
      ensures CurrentApp().None? ==> selectedShortcuts == old(selectedShortcuts)
      ensures selectedApp == old(selectedApp) && title == old(title)
      ensures pageSize == old(pageSize) && theme == old(theme)
    {
      var found := CurrentApp();
      FoundAppWellFormed(apps, selectedApp);
      if found.Some? {
        selectedShortcuts := Ids(found.value.shortcuts);
        FilteredAllSelected(found.value);
      }
    }

    /** `deselectAll`: an empty selection, and so an empty preview. */
    method DeselectAll()
      requires Valid()
      modifies this
      ensures Valid()
      ensures Scoped()
      ensures selectedShortcuts == [] && FilteredShortcuts() == []
      ensures selectedApp == old(selectedApp) && title == old(title)
      ensures pageSize == old(pageSize) && theme == old(theme)
    {
      selectedShortcuts := [];
    }

    /** The title input. */
    method SetTitle(t: string)
      requires Valid()
      modifies this
      ensures Valid()
      ensures old(Scoped()) ==> Scoped()
      ensures title == t
      ensures selectedApp == old(selectedApp) && selectedShortcuts == old(selectedShortcuts)
      ensures pageSize == old(pageSize) && theme == old(theme)
    {
      title := t;
    }

    /** The page size selector. */
    method SetPageSize(p: PageSize)
      requires Valid()
      modifies this
      ensures Valid()
      ensures old(Scoped()) ==> Scoped()
      ensures pageSize == p
      ensures selectedApp == old(selectedApp) && selectedShortcuts == old(selectedShortcuts)
      ensures title == old(title) && theme == old(theme)
    {
      pageSize := p;
    }

    /** The theme selector. */
    method SetTheme(t: Theme)
      requires Valid()
      modifies this
      ensures Valid()
      ensures old(Scoped()) ==> Scoped()
      ensures theme == t
      ensures selectedApp == old(selectedApp) && selectedShortcuts == old(selectedShortcuts)
      ensures title == old(title) && pageSize == old(pageSize)
    {
      theme := t;
    }

    /**
     `groupedShortcuts`: the checklist's tabs, one group per category of the
     current app in first-seen order; none without an app. `None` is the
     `TypeError` the `reduce` throws on an inherited category label.
     */
    method Checklist() returns (groups: Option<seq<Group>>)
      ensures groups.None? <==> CurrentApp().Some? && !Bucketable(CurrentApp().value.shortcuts)
      ensures CurrentApp().None? ==> groups == Some([])
      ensures CurrentApp().Some? && groups.Some? ==> groups.value == GroupsOf(CurrentApp().value.shortcuts)
      ensures CurrentApp().Some? && groups.Some? ==>
                multiset(Flatten(groups.value)) == multiset(CurrentApp().value.shortcuts)
    {
      var app := CurrentApp();
      if app.Some? {
        groups := Render(app.value.shortcuts);
      } else {
        groups := Some([]);
      }
    }

    /**
     The preview's sections: the selected shortcuts of the current app,
     grouped by category, or `None` when the preview's `reduce` throws.
     */
    method PreviewSections() returns (sections: Option<seq<Group>>)
      ensures sections.None? <==> !Bucketable(FilteredShortcuts())
      ensures sections.Some? ==> sections.value == GroupsOf(FilteredShortcuts())
      ensures sections.Some? ==> forall i, s :: 0 <= i < |sections.value| && s in sections.value[i].items ==>
                s.id in selectedShortcuts && CurrentApp().Some? && s in CurrentApp().value.shortcuts
    {
      sections := Render(FilteredShortcuts());
    }

    /**
     `handleDownload`: without the printable area nothing is produced;
     otherwise the file name and the document built from the title, the page
     size and the area's markup.
     */
    method Download(printArea: Option<string>) returns (file: Option<(string, string)>)
      ensures printArea.None? <==> file.None?
      ensures file.Some? ==> file.value.0 == FileName(title)
      ensures file.Some? ==> file.value.1 == HtmlDocument(title, pageSize, printArea.value)
      ensures file.Some? ==> Occurs(TitleOpen + title + TitleClose, file.value.1) && Occurs(printArea.value, file.value.1)
    {
      match printArea
      case None => file := None;
      case Some(markup) => file := Some((FileName(title), HtmlDocument(title, pageSize, markup)));
    }
  }
}
