/**
 The shapes of the static shortcut catalog: a `Shortcut` (an id unique within
 its app, the keys of its chord, a description and a category label) and a
 `ShortcutApp` (an id, a display name and its shortcuts in catalog order).
 The catalog itself is data supplied from outside.
 */
module Shortcuts {
  import opened Seqs

  datatype Option<T> = None | Some(value: T)

  datatype Shortcut = Shortcut(id: string, keys: seq<string>, description: string, category: string)

  datatype ShortcutApp = ShortcutApp(id: string, name: string, shortcuts: seq<Shortcut>)

  /** `shortcuts.map((s) => s.id)`. */
  function Ids(xs: seq<Shortcut>): seq<string> {
    seq(|xs|, i requires 0 <= i < |xs| => xs[i].id)
  }

  /** Ids are unique within an app. */
  predicate UniqueIds(xs: seq<Shortcut>) {
    NoDup(Ids(xs))
  }

  /** Every app of the catalog has unique shortcut ids. */
  predicate CatalogWellFormed(apps: seq<ShortcutApp>) {
    forall i :: 0 <= i < |apps| ==> UniqueIds(apps[i].shortcuts)
  }

  /**
   `shortcutApps.find((app) => app.id === id)`: the first app with that id,
   or nothing when no app has it.
   */
  function FindApp(apps: seq<ShortcutApp>, id: string): (r: Option<ShortcutApp>)
    ensures r.None? <==> forall i :: 0 <= i < |apps| ==> apps[i].id != id
    ensures r.Some? ==> exists k :: 0 <= k < |apps| && apps[k] == r.value && r.value.id == id &&
                                  forall i :: 0 <= i < k ==> apps[i].id != id
  {
    if apps == [] then None
    else if apps[0].id == id then Some(apps[0])
    else
      var r := FindApp(apps[1..], id);
      assert r.Some? ==> exists k :: 0 <= k < |apps[1..]| && apps[1..][k] == r.value &&
                              forall i :: 0 <= i < k ==> apps[1..][i].id != id;
      r
  }

  /** The app found in a well-formed catalog has unique shortcut ids. */
  lemma FoundAppWellFormed(apps: seq<ShortcutApp>, id: string)
    requires CatalogWellFormed(apps)
    ensures FindApp(apps, id).Some? ==> UniqueIds(FindApp(apps, id).value.shortcuts)
  {
    var r := FindApp(apps, id);
    if r.Some? {
      var k :| 0 <= k < |apps| && apps[k] == r.value;
    }
  }

  /** A shortcut's id is among its app's ids exactly when the shortcut is in the app. */
  lemma IdsMembership(xs: seq<Shortcut>, x: string)
    ensures x in Ids(xs) <==> exists s :: s in xs && s.id == x
  {
    if x in Ids(xs) {
      var i :| 0 <= i < |xs| && Ids(xs)[i] == x;
      assert xs[i] in xs;
    }
    if s :| s in xs && s.id == x {
      var i :| 0 <= i < |xs| && xs[i] == s;
      assert Ids(xs)[i] == x;
    }
  }

  /** With unique ids, a shortcut is determined by its id within its app. */
  lemma {:induction false} UniqueIdsDetermine(xs: seq<Shortcut>, s: Shortcut, t: Shortcut)
    requires UniqueIds(xs) && s in xs && t in xs && s.id == t.id
    ensures s == t
  {
    var i :| 0 <= i < |xs| && xs[i] == s;
    var j :| 0 <= j < |xs| && xs[j] == t;
    assert Ids(xs)[i] == Ids(xs)[j];
  }
}
