/**
 The preview sheet of src/components/ShortcutPreview.tsx: the lookup tables
 for page size, grid columns and theme, the footer's theme branches, the
 layout of a key chord as badges with `+` separators, and the grouping of the
 shortcuts it is given into one section per category.
 */
module Preview {
  import opened Seqs
  import opened Shortcuts
  import opened Grouping

  datatype PageSize = A4 | A5 | A6

  datatype Theme = Minimal | Modern | Bold

  /** The string values of the `pageSize` union, as the size selector offers them. */
  function PageSizeKey(p: PageSize): string {
    match p
    case A4 => "a4"
    case A5 => "a5"
    case A6 => "a6"
  }

  /**
   `pageSizeClasses`: the sheet's width and minimum height in millimetres,
   the numbers of its `w-[..mm] min-h-[..mm]` classes.
   */
  function PageSizeMm(p: PageSize): (r: (nat, nat))
    ensures 0 < r.0 < r.1
  {
    match p
    case A4 => (210, 297)
    case A5 => (148, 210)
    case A6 => (105, 148)
  }

  /** The class string of `pageSizeClasses` for a page size. */
  function PageSizeClasses(p: PageSize): string {
    var (w, h) := PageSizeMm(p);
    "w-[" + Decimal(w) + "mm] min-h-[" + Decimal(h) + "mm]"
  }

  /**
   The A-series of ISO 216 as (width, height) in millimetres: A0 is
   841 x 1189, and each next size halves the previous one across its longer
   side, rounding down to the millimetre.
   */
  function ASeries(n: nat): (nat, nat) {
    if n == 0 then (841, 1189)
    else
      var (w, h) := ASeries(n - 1);
      (h / 2, w)
  }

  /** The ISO 216 number of a page size (A4 is 4). */
  function SeriesNumber(p: PageSize): nat {
    match p
    case A4 => 4
    case A5 => 5
    case A6 => 6
  }

  /** The class strings of the source's table, for A4, A5 and A6 in turn. */
  lemma PageSizeClassStrings()
    ensures PageSizeClasses(A4) == "w-[210mm] min-h-[297mm]"
    ensures PageSizeClasses(A5) == "w-[148mm] min-h-[210mm]"
    ensures PageSizeClasses(A6) == "w-[105mm] min-h-[148mm]"
  {
    SizeDigits();
    assert "w-[" + "210" + "mm] min-h-[" + "297" + "mm]" == "w-[210mm] min-h-[297mm]";
    assert "w-[" + "148" + "mm] min-h-[" + "210" + "mm]" == "w-[148mm] min-h-[210mm]";
    assert "w-[" + "105" + "mm] min-h-[" + "148" + "mm]" == "w-[105mm] min-h-[148mm]";
  }

  lemma SizeDigits()
    ensures Decimal(210) == "210" && Decimal(297) == "297"
    ensures Decimal(148) == "148" && Decimal(105) == "105"
  {
  }

  /** Decimal digits of a natural number, without leading zeros. */
  function Decimal(n: nat): (r: string)
    ensures |r| >= 1
    ensures forall i :: 0 <= i < |r| ==> '0' <= r[i] <= '9'
  {
    if n < 10 then [(48 + n) as char] else Decimal(n / 10) + [(48 + n % 10) as char]
  }

  /**
   The page-size table holds the ISO 216 A-series sizes: A4 is 210 x 297 mm,
   A5 148 x 210 mm, A6 105 x 148 mm.
   */
  lemma PageSizesAreIsoSizes(p: PageSize)
    ensures PageSizeMm(p) == ASeries(SeriesNumber(p))
  {
    assert ASeries(1) == (594, 841);
    assert ASeries(2) == (420, 594);
    assert ASeries(3) == (297, 420);
    assert ASeries(4) == (210, 297);
    assert ASeries(5) == (148, 210);
  }

  /** Going down one page size, the height becomes the former width and the width half the former height. */
  lemma {:induction false} PageSizesHalve()
    ensures PageSizeMm(A5).1 == PageSizeMm(A4).0 && PageSizeMm(A5).0 == PageSizeMm(A4).1 / 2
    ensures PageSizeMm(A6).1 == PageSizeMm(A5).0 && PageSizeMm(A6).0 == PageSizeMm(A5).1 / 2
  {
    PageSizesAreIsoSizes(A4);
    PageSizesAreIsoSizes(A5);
    PageSizesAreIsoSizes(A6);
    ASeriesHalving(4);
    ASeriesHalving(5);
  }

  /** Each A-series size's height is the next larger size's width. */
  lemma {:induction false} ASeriesHalving(n: nat)
    ensures ASeries(n + 1).1 == ASeries(n).0
    ensures ASeries(n + 1).0 == ASeries(n).1 / 2
  {
  }

  /** `gridColumns`: the Tailwind class choosing the preview's column count. */
  function GridColumns(p: PageSize): string {
    match p
    case A4 => "grid-cols-3"
    case A5 => "grid-cols-2"
    case A6 => "grid-cols-2"
  }

  /** The number of columns the `gridColumns` class of a page size selects: 3 on A4, 2 on A5 and A6. */
  function ColumnCount(p: PageSize): (n: nat)
    ensures GridColumns(p) == "grid-cols-" + Decimal(n)
  {
    assert Decimal(3) == "3" && Decimal(2) == "2";
    if p == A4 then 3 else 2
  }

  /** A wider page never gets fewer columns. */
  lemma {:induction false} WiderPagesHaveMoreColumns(p: PageSize, q: PageSize)
    requires ASeries(SeriesNumber(p)).0 >= ASeries(SeriesNumber(q)).0
    ensures ColumnCount(p) >= ColumnCount(q)
  {
    assert ASeries(4).0 == 210 && ASeries(5).0 == 148 && ASeries(6).0 == 105;
  }

  const CategoryContainer := "col-span-full"
  const KeyContainer := "flex gap-1 items-center mb-0.5"

  /** One entry of `themeClasses`. */
  datatype ThemeStyles = ThemeStyles(
    container: string,
    header: string,
    title: string,
    category: string,
    categoryContainer: string,
    shortcutRow: string,
    keyContainer: string,
    key: string,
    separator: string,
    description: string)

  /**
   `themeClasses[theme]`: every theme has a style record; the themes differ
   in colours only, sharing the layout of category headers and key rows.
   */
  function ThemeClasses(t: Theme): (r: ThemeStyles)
    ensures r.categoryContainer == CategoryContainer
    ensures r.keyContainer == KeyContainer
  {
    match t
    case Minimal => MinimalStyles
    case Modern => ModernStyles
    case Bold => BoldStyles
  }

  const MinimalStyles := ThemeStyles(
    "bg-white",
    "bg-gradient-to-r from-gray-900 to-gray-700",
    "text-white font-light tracking-wide",
    "text-gray-800 text-xs font-bold uppercase tracking-wider mb-2 pb-1 border-b-2 border-gray-300",
    CategoryContainer,
    "py-1 px-2 border-b border-gray-100",
    KeyContainer,
    "bg-white text-gray-800 border border-gray-300 shadow-sm",
    "text-gray-400 text-xs",
    "text-gray-600 text-[10px]")

  const ModernStyles := ThemeStyles(
    "bg-gradient-to-br from-slate-50 via-blue-50 to-indigo-100",
    "bg-gradient-to-r from-blue-600 via-indigo-600 to-purple-600",
    "text-white font-bold tracking-tight",
    "text-indigo-900 text-xs font-bold uppercase tracking-wider mb-2 pb-1 border-b-2 border-indigo-300",
    CategoryContainer,
    "py-1 px-2 rounded-md bg-white/50 backdrop-blur-sm",
    KeyContainer,
    "bg-gradient-to-br from-blue-500 to-indigo-600 text-white border-0 shadow-md",
    "text-indigo-400 text-xs font-bold",
    "text-slate-700 text-[10px]")

  const BoldStyles := ThemeStyles(
    "bg-gradient-to-br from-gray-900 to-black",
    "bg-gradient-to-r from-yellow-400 to-orange-500",
    "text-black font-black tracking-tight",
    "text-yellow-400 text-xs font-black uppercase tracking-widest mb-2 pb-1 border-b-2 border-yellow-400",
    CategoryContainer,
    "py-1 border-l-4 border-yellow-400 pl-2",
    KeyContainer,
    "bg-yellow-400 text-black border-0 font-bold shadow-lg shadow-yellow-400/50",
    "text-yellow-500 text-xs font-bold",
    "text-gray-200 text-[10px]")

  datatype FooterStyle = FooterStyle(background: string, border: string, text: string)

  /** The footer's classes: `bold` is tested first, then `modern`; `minimal` is the fallback. */
  function Footer(t: Theme): FooterStyle {
    FooterStyle(
      if t == Bold then "bg-gray-900/50" else if t == Modern then "bg-white/30" else "bg-gray-50",
      if t == Bold then "border-gray-800" else if t == Modern then "border-indigo-200" else "border-gray-200",
      if t == Bold then "text-gray-500" else if t == Modern then "text-indigo-600" else "text-gray-500")
  }

  /**
   Each theme gets its own footer background and border; the footer text of
   `minimal` and `bold` is the same grey, `modern` alone colours it.
   */
  lemma FooterPerTheme(t: Theme, u: Theme)
    ensures t != u ==> Footer(t).background != Footer(u).background && Footer(t).border != Footer(u).border
    ensures Footer(t).text == Footer(u).text <==> t == u || (t != Modern && u != Modern)
  {
  }

  /** One `<span>` of the key row: the key's badge, followed by a `+` separator or not. */
  datatype KeySpan = KeySpan(key: string, plus: bool)

  /** `keys.map((key, index) => ...)`: a `+` follows every key but the last. */
  function KeySpans(keys: seq<string>): seq<KeySpan> {
    seq(|keys|, i requires 0 <= i < |keys| => KeySpan(keys[i], i < |keys| - 1))
  }

  /** The number of `+` separators in a key row. */
  function Separators(spans: seq<KeySpan>): nat {
    if spans == [] then 0 else (if spans[0].plus then 1 else 0) + Separators(spans[1..])
  }

  lemma KeySpansTail(keys: seq<string>)
    requires keys != []
    ensures KeySpans(keys)[1..] == KeySpans(keys[1..])
  {
  }

  /**
   A chord of n keys shows n badges, its keys in order, and n - 1 separators,
   none after the last key.
   */
  lemma {:induction false} KeyRowLayout(keys: seq<string>)
    ensures |KeySpans(keys)| == |keys|
    ensures forall i :: 0 <= i < |keys| ==> KeySpans(keys)[i].key == keys[i]
    ensures Separators(KeySpans(keys)) == if keys == [] then 0 else |keys| - 1
    ensures keys != [] ==> !KeySpans(keys)[|keys| - 1].plus
    decreases |keys|
  {
    if keys != [] {
      KeySpansTail(keys);
      KeyRowLayout(keys[1..]);
    }
  }

  /** What a key row reads as: each key, then " + " where a separator follows it. */
  function SpansText(spans: seq<KeySpan>): string {
    if spans == [] then "" else spans[0].key + (if spans[0].plus then " + " else "") + SpansText(spans[1..])
  }

  /** `keys.join(sep)`. */
  function Join(keys: seq<string>, sep: string): string {
    if keys == [] then ""
    else if |keys| == 1 then keys[0]
    else keys[0] + sep + Join(keys[1..], sep)
  }

  /** The preview's key row reads exactly as the checklist's `keys.join(" + ")` label. */
  lemma {:induction false} KeyRowMatchesChecklistLabel(keys: seq<string>)
    ensures SpansText(KeySpans(keys)) == Join(keys, " + ")
    decreases |keys|
  {
    if keys != [] {
      KeySpansTail(keys);
      KeyRowMatchesChecklistLabel(keys[1..]);
      if |keys| == 1 {
        assert SpansText(KeySpans(keys)[1..]) == "";
      }
    }
  }

  /**
   The sections of the preview: one per category, in first-seen order, each
   listing its shortcuts in input order (the `reduce` at lines 72-78 and the
   `Object.entries` map that renders it). `None` is the `TypeError` the
   `reduce` throws on an inherited category label.
   */
  method Render(shortcuts: seq<Shortcut>) returns (sections: Option<seq<Group>>)
    ensures sections.None? <==> !Bucketable(shortcuts)
    ensures sections.Some? ==> sections.value == GroupsOf(shortcuts)
    ensures sections.Some? ==> multiset(Flatten(sections.value)) == multiset(shortcuts)
  {
    var ok, keys, buckets := GroupByCategory(shortcuts);
    if ok {
      EntriesAreGroups(shortcuts, keys, buckets);
      sections := Some(Entries(keys, buckets));
      GroupsPartition(shortcuts);
    } else {
      sections := None;
    }
  }
}
