/**
 Grouping shortcuts by category, as both the checklist (src/App.tsx) and the
 preview (src/components/ShortcutPreview.tsx) do it: a `reduce` that fills a
 `Record<string, Shortcut[]>`, creating a bucket the first time a category is
 seen and pushing each shortcut into its bucket. `Object.entries` then lists
 the buckets in insertion order, that is, in first-seen order of categories.
 */
module Grouping {
  import opened Seqs
  import opened Shortcuts

  /** One `[category, shortcuts]` entry of the grouped record. */
  datatype Group = Group(category: string, items: seq<Shortcut>)

  /** The category label of each shortcut, in order. */
  function CategoryList(xs: seq<Shortcut>): seq<string> {
    seq(|xs|, i requires 0 <= i < |xs| => xs[i].category)
  }

  lemma CategoryListMembership(xs: seq<Shortcut>, c: string)
    ensures c in CategoryList(xs) <==> exists s :: s in xs && s.category == c
  {
    if c in CategoryList(xs) {
      var i :| 0 <= i < |xs| && CategoryList(xs)[i] == c;
      assert xs[i] in xs;
    }
    if s :| s in xs && s.category == c {
      var i :| 0 <= i < |xs| && xs[i] == s;
      assert CategoryList(xs)[i] == c;
    }
  }

  /** The distinct categories of `xs`, in the order they are first seen. */
  function Categories(xs: seq<Shortcut>): (r: seq<string>)
    ensures NoDup(r)
  {
    Dedup(CategoryList(xs))
  }

  /** A label is among the categories exactly when some shortcut carries it. */
  lemma CategoriesMembership(xs: seq<Shortcut>, c: string)
    ensures c in Categories(xs) <==> exists s :: s in xs && s.category == c
  {
    CategoryListMembership(xs, c);
  }

  /**
   Categories come in the order of their first occurrence: of two listed
   categories, the one listed first is carried by an earlier shortcut.
   */
  lemma CategoriesFirstSeen(xs: seq<Shortcut>)
    ensures forall i, j :: 0 <= i < j < |Categories(xs)| ==>
              FirstIndex(CategoryList(xs), Categories(xs)[i]) < FirstIndex(CategoryList(xs), Categories(xs)[j])
  {
    DedupFirstSeenOrder(CategoryList(xs));
  }

  function HasCategory(c: string): Shortcut -> bool {
    (s: Shortcut) => s.category == c
  }

  /** The shortcuts of category `c`, in their order in `xs`. */
  function InCategory(xs: seq<Shortcut>, c: string): (r: seq<Shortcut>)
    ensures forall s :: s in r <==> s in xs && s.category == c
  {
    Filter(xs, HasCategory(c))
  }

  function GroupsFor(xs: seq<Shortcut>, cats: seq<string>): seq<Group> {
    seq(|cats|, i requires 0 <= i < |cats| => Group(cats[i], InCategory(xs, cats[i])))
  }

  /**
   The grouped record's entries: one group per distinct category, in
   first-seen order, each holding exactly the shortcuts of its category.
   No group is empty, and no input gives no groups.
   */
  function GroupsOf(xs: seq<Shortcut>): (r: seq<Group>)
    ensures |r| == |Categories(xs)|
    ensures forall i :: 0 <= i < |r| ==> r[i].category == Categories(xs)[i]
    ensures forall i :: 0 <= i < |r| ==> r[i].items != []
    ensures forall i, s :: 0 <= i < |r| ==> (s in r[i].items <==> s in xs && s.category == r[i].category)
    ensures xs == [] ==> r == []
  {
    var cats := Categories(xs);
    var r := GroupsFor(xs, cats);
    forall i | 0 <= i < |r| ensures r[i].items != [] {
      CategoriesMembership(xs, cats[i]);
      var s :| s in xs && s.category == cats[i];
      assert s in r[i].items;
    }
    r
  }

  /** All shortcuts of the groups, group after group: what the preview lists. */
  function Flatten(gs: seq<Group>): seq<Shortcut> {
    if gs == [] then [] else gs[0].items + Flatten(gs[1..])
  }

  /** `Object.entries(record)` for a record whose insertion order is `keys`. */
  function Entries(keys: seq<string>, buckets: map<string, seq<Shortcut>>): seq<Group>
    requires forall c :: c in keys ==> c in buckets
  {
    seq(|keys|, i requires 0 <= i < |keys| => Group(keys[i], buckets[keys[i]]))
  }

  /** `buckets`, inserted in the order `keys`, is the grouped record of `ys`. */
  ghost predicate GroupedRecord(ys: seq<Shortcut>, keys: seq<string>, buckets: map<string, seq<Shortcut>>) {
    && keys == Categories(ys)
    && (forall c :: c in buckets <==> c in keys)
    && (forall c :: c in buckets ==> buckets[c] == InCategory(ys, c))
  }

  /**
   The property names an empty object literal inherits from
   `Object.prototype`. Looking one of them up in the record yields the
   inherited function or object, which is truthy, so no bucket is created and
   the following `push` throws a `TypeError`.
   */
  const InheritedKeys: set<string> := {
    "constructor", "hasOwnProperty", "isPrototypeOf", "propertyIsEnumerable",
    "toLocaleString", "toString", "valueOf", "__proto__",
    "__defineGetter__", "__defineSetter__", "__lookupGetter__", "__lookupSetter__"
  }

  /** No shortcut carries a category label the record inherits. */
  predicate Bucketable(xs: seq<Shortcut>) {
    forall i :: 0 <= i < |xs| ==> xs[i].category !in InheritedKeys
  }

  /**
   The `reduce` over `xs`: `buckets` is the record and `keys` its insertion
   order. It throws (`ok` is false) exactly when some shortcut's category is
   an inherited property name. Otherwise the keys are the distinct categories
   in first-seen order and each bucket holds the shortcuts of its category in
   their order in `xs`.
   */
  method GroupByCategory(xs: seq<Shortcut>) returns (ok: bool, keys: seq<string>, buckets: map<string, seq<Shortcut>>)
    ensures ok <==> Bucketable(xs)
    ensures ok ==> keys == Categories(xs)
    ensures ok ==> forall c :: c in buckets <==> c in keys
    ensures ok ==> forall c :: c in buckets ==> buckets[c] == InCategory(xs, c)
  {
    keys, buckets := [], map[];
    var i := 0;
    while i < |xs|
      invariant 0 <= i <= |xs|
      invariant Bucketable(xs[..i])
      invariant GroupedRecord(xs[..i], keys, buckets)
    {
      var s := xs[i];
      if s.category in InheritedKeys {
        return false, keys, buckets;
      }
      ghost var keys0, buckets0 := keys, buckets;
      if s.category !in buckets {
        keys := keys + [s.category];
        buckets := buckets[s.category := []];
      }
      buckets := buckets[s.category := buckets[s.category] + [s]];
      PushStep(xs[..i], s, keys0, buckets0);
      assert xs[..i + 1] == xs[..i] + [s];
      i := i + 1;
    }
    assert xs[..i] == xs;
    ok := true;
  }

  /** One step of the `reduce`: adding `s` to the record of `ys` gives the record of `ys + [s]`. */
  lemma PushStep(ys: seq<Shortcut>, s: Shortcut, keys: seq<string>, buckets: map<string, seq<Shortcut>>)
    requires GroupedRecord(ys, keys, buckets)
    ensures GroupedRecord(ys + [s],
                          if s.category in buckets then keys else keys + [s.category],
                          buckets[s.category := (if s.category in buckets then buckets[s.category] else []) + [s]])
  {
    CategoriesSnoc(ys, s);
    var after := buckets[s.category := (if s.category in buckets then buckets[s.category] else []) + [s]];
    forall c | c in after ensures after[c] == InCategory(ys + [s], c) {
      InCategorySnoc(ys, s, c);
      if c == s.category && c !in buckets {
        NoneOfCategory(ys, c);
      }
    }
  }

  /** The record built by `GroupByCategory`, listed by `Object.entries`, is `GroupsOf`. */
  lemma EntriesAreGroups(xs: seq<Shortcut>, keys: seq<string>, buckets: map<string, seq<Shortcut>>)
    requires keys == Categories(xs)
    requires forall c :: c in buckets <==> c in keys
    requires forall c :: c in buckets ==> buckets[c] == InCategory(xs, c)
    ensures Entries(keys, buckets) == GroupsOf(xs)
  {
  }

  lemma CategoriesSnoc(xs: seq<Shortcut>, s: Shortcut)
    ensures Categories(xs + [s]) ==
            if s.category in Categories(xs) then Categories(xs) else Categories(xs) + [s.category]
  {
    assert CategoryList(xs + [s]) == CategoryList(xs) + [s.category];
    DedupSnoc(CategoryList(xs), s.category);
  }

  lemma InCategorySnoc(xs: seq<Shortcut>, s: Shortcut, c: string)
    ensures InCategory(xs + [s], c) == InCategory(xs, c) + (if s.category == c then [s] else [])
  {
    FilterConcat(xs, [s], HasCategory(c));
  }

  /** Within a group, shortcuts keep their catalog order. */
  lemma GroupKeepsOrder(xs: seq<Shortcut>, c: string)
    ensures Subsequence(InCategory(xs, c), xs)
  {
    FilterIsSubsequence(xs, HasCategory(c));
  }

  lemma {:induction false} FlattenConcat(a: seq<Group>, b: seq<Group>)
    ensures Flatten(a + b) == Flatten(a) + Flatten(b)
  {
    if a != [] {
      assert (a + b)[1..] == a[1..] + b;
      FlattenConcat(a[1..], b);
    } else {
      assert a + b == b;
    }
  }

  /** A new shortcut whose category is not among `cats` leaves their groups as they are. */
  lemma {:induction false} FlattenSnocOutside(xs: seq<Shortcut>, cats: seq<string>, s: Shortcut)
    requires s.category !in cats
    ensures Flatten(GroupsFor(xs + [s], cats)) == Flatten(GroupsFor(xs, cats))
  {
    if cats != [] {
      assert GroupsFor(xs + [s], cats)[1..] == GroupsFor(xs + [s], cats[1..]);
      assert GroupsFor(xs, cats)[1..] == GroupsFor(xs, cats[1..]);
      InCategorySnoc(xs, s, cats[0]);
      FlattenSnocOutside(xs, cats[1..], s);
    }
  }

  /** A new shortcut whose category is one of `cats` (listed once) lands in exactly one group. */
  lemma {:induction false} FlattenSnocInside(xs: seq<Shortcut>, cats: seq<string>, s: Shortcut)
    requires NoDup(cats) && s.category in cats
    ensures multiset(Flatten(GroupsFor(xs + [s], cats))) == multiset(Flatten(GroupsFor(xs, cats))) + multiset{s}
  {
    assert GroupsFor(xs + [s], cats)[1..] == GroupsFor(xs + [s], cats[1..]);
    assert GroupsFor(xs, cats)[1..] == GroupsFor(xs, cats[1..]);
    InCategorySnoc(xs, s, cats[0]);
    if cats[0] == s.category {
      assert s.category !in cats[1..] by {
        forall k | 0 <= k < |cats[1..]| ensures cats[1..][k] != cats[0] {
          assert cats[1..][k] == cats[k + 1];
        }
      }
      FlattenSnocOutside(xs, cats[1..], s);
    } else {
      assert NoDup(cats[1..]) by {
        forall i, j | 0 <= i < j < |cats[1..]| ensures cats[1..][i] != cats[1..][j] {
          assert cats[1..][i] == cats[i + 1] && cats[1..][j] == cats[j + 1];
        }
      }
      FlattenSnocInside(xs, cats[1..], s);
    }
  }

  lemma FlattenSnocCategory(ys: seq<Shortcut>, cats: seq<string>, c: string)
    ensures Flatten(GroupsFor(ys, cats + [c])) == Flatten(GroupsFor(ys, cats)) + InCategory(ys, c)
  {
    assert GroupsFor(ys, cats + [c]) == GroupsFor(ys, cats) + [Group(c, InCategory(ys, c))];
    FlattenConcat(GroupsFor(ys, cats), [Group(c, InCategory(ys, c))]);
  }

  /** A category that is not among the first-seen categories has no shortcuts. */
  lemma NoneOfCategory(xs: seq<Shortcut>, c: string)
    ensures c !in Categories(xs) ==> InCategory(xs, c) == []
  {
    var r := InCategory(xs, c);
    if r != [] {
      assert r[0] in r;
      CategoriesMembership(xs, c);
    }
  }

  /** Appending a shortcut of an already seen category adds it to that category's group. */
  lemma GroupsSnocSeen(xs: seq<Shortcut>, s: Shortcut)
    requires s.category in Categories(xs)
    ensures multiset(Flatten(GroupsOf(xs + [s]))) == multiset(Flatten(GroupsOf(xs))) + multiset{s}
  {
    CategoriesSnoc(xs, s);
    FlattenSnocInside(xs, Categories(xs), s);
  }

  /** Appending a shortcut of a new category adds a group holding just it, at the end. */
  lemma GroupsSnocNew(xs: seq<Shortcut>, s: Shortcut)
    requires s.category !in Categories(xs)
    ensures Flatten(GroupsOf(xs + [s])) == Flatten(GroupsOf(xs)) + [s]
  {
    var cats := Categories(xs);
    CategoriesSnoc(xs, s);
    FlattenSnocCategory(xs + [s], cats, s.category);
    FlattenSnocOutside(xs, cats, s);
    InCategorySnoc(xs, s, s.category);
    NoneOfCategory(xs, s.category);
  }

  /**
   The groups partition their input: listing every group's shortcuts gives
   each input shortcut exactly as often as it occurs in the input.
   */
  lemma {:induction false} GroupsPartition(xs: seq<Shortcut>)
    ensures multiset(Flatten(GroupsOf(xs))) == multiset(xs)
    decreases |xs|
  {
    if xs != [] {
      var xs', s := xs[..|xs| - 1], xs[|xs| - 1];
      assert xs == xs' + [s];
      GroupsPartition(xs');
      if s.category in Categories(xs') {
        GroupsSnocSeen(xs', s);
      } else {
        GroupsSnocNew(xs', s);
      }
    }
  }

  /**
   Every shortcut of the input sits in exactly one group, the one of its own
   category, even when other categories come between it and its peers.
   */
  lemma ExactlyOneGroup(xs: seq<Shortcut>, s: Shortcut)
    requires s in xs
    ensures exists i :: 0 <= i < |GroupsOf(xs)| && GroupsOf(xs)[i].category == s.category && s in GroupsOf(xs)[i].items
    ensures forall i, j ::
              (0 <= i < |GroupsOf(xs)| && 0 <= j < |GroupsOf(xs)| &&
               s in GroupsOf(xs)[i].items && s in GroupsOf(xs)[j].items) ==> i == j
  {
    var gs := GroupsOf(xs);
    var cats := Categories(xs);
    CategoriesMembership(xs, s.category);
    var i :| 0 <= i < |cats| && cats[i] == s.category;
    assert s in gs[i].items;
  }
}
