/**
 The string parts of the download in src/App.tsx (`handleDownload`): the
 suggested file name derived from the title, the `@page` size taken from the
 page size, and the HTML document that wraps the sheet's markup. The markup
 itself is a parameter: it comes from the rendered page.
 */
module Export {
  import opened Preview

  /**
   JavaScript's `\s`: the ASCII whitespace characters, no-break space, the
   Unicode space separators, line and paragraph separators and the byte
   order mark.
   */
  predicate IsSpace(c: char) {
    var n := c as int;
    n == 0x20 || 0x09 <= n <= 0x0D || n == 0xA0 || n == 0x1680 || 0x2000 <= n <= 0x200A ||
    n == 0x2028 || n == 0x2029 || n == 0x202F || n == 0x205F || n == 0x3000 || n == 0xFEFF
  }

  predicate NoSpace(s: string) {
    forall i :: 0 <= i < |s| ==> !IsSpace(s[i])
  }

  predicate AllSpace(s: string) {
    forall i :: 0 <= i < |s| ==> IsSpace(s[i])
  }

  predicate IsUpper(c: char) {
    'A' <= c <= 'Z'
  }

  function LowerChar(c: char): char {
    if IsUpper(c) then (c as int + 32) as char else c
  }

  function UpperChar(c: char): char {
    if IsLower(c) then (c as int - 32) as char else c
  }

  predicate IsLower(c: char) {
    'a' <= c <= 'z'
  }

  /**
   `toLowerCase`, on ASCII letters: no upper-case letter is left, each one
   becomes the same letter in lower case, and every other character stays as
   it was.
   */
  function Lower(s: string): (r: string)
    ensures |r| == |s|
    ensures forall i :: 0 <= i < |r| ==> !IsUpper(r[i])
    ensures forall i :: 0 <= i < |r| ==> r[i] == s[i] || (IsUpper(s[i]) && IsLower(r[i]))
    ensures forall i :: 0 <= i < |s| && IsUpper(s[i]) ==> r[i] as int - 'a' as int == s[i] as int - 'A' as int
  {
    seq(|s|, i requires 0 <= i < |s| => LowerChar(s[i]))
  }

  /**
   `toUpperCase`, on ASCII letters: no lower-case letter is left, each one
   becomes the same letter in upper case, and every other character stays as
   it was.
   */
  function Upper(s: string): (r: string)
    ensures |r| == |s|
    ensures forall i :: 0 <= i < |r| ==> !IsLower(r[i])
    ensures forall i :: 0 <= i < |r| ==> r[i] == s[i] || (IsLower(s[i]) && IsUpper(r[i]))
    ensures forall i :: 0 <= i < |s| && IsLower(s[i]) ==> r[i] as int - 'A' as int == s[i] as int - 'a' as int
  {
    seq(|s|, i requires 0 <= i < |s| => UpperChar(s[i]))
  }

  /** The rest of `s` after its leading whitespace. */
  function SkipSpaces(s: string): (r: string)
    ensures |r| <= |s| && s == s[..|s| - |r|] + r
    ensures AllSpace(s[..|s| - |r|])
    ensures r == [] || !IsSpace(r[0])
  {
    if s != [] && IsSpace(s[0]) then SkipSpaces(s[1..]) else s
  }

  /**
   `.replace(/\s+/g, "-")`: each maximal run of whitespace becomes one `-`;
   the result has no whitespace and its other characters come from `s`.
   */
  function Hyphenate(s: string): (r: string)
    ensures NoSpace(r)
    ensures |r| <= |s|
    ensures forall i :: 0 <= i < |r| ==> r[i] == '-' || r[i] in s
    decreases |s|
  {
    if s == [] then []
    else if IsSpace(s[0]) then
      var rest := SkipSpaces(s);
      var r := "-" + Hyphenate(rest);
      assert forall c :: c in rest ==> c in s;
      r
    else
      var r := [s[0]] + Hyphenate(s[1..]);
      assert forall c :: c in s[1..] ==> c in s;
      r
  }

  /** A string without whitespace is left as it is. */
  lemma {:induction false} HyphenateNoSpace(s: string)
    requires NoSpace(s)
    ensures Hyphenate(s) == s
  {
    if s != [] {
      HyphenateNoSpace(s[1..]);
    }
  }

  /**
   One maximal whitespace run between a word and the rest becomes exactly one
   `-`: `Hyphenate(w + ws + rest) == w + "-" + Hyphenate(rest)`.
   */
  lemma {:induction false} HyphenateRun(w: string, ws: string, rest: string)
    requires NoSpace(w) && ws != [] && AllSpace(ws)
    requires rest == [] || !IsSpace(rest[0])
    ensures Hyphenate(w + ws + rest) == w + "-" + Hyphenate(rest)
    decreases |w|
  {
    if w == [] {
      assert w + ws + rest == ws + rest;
      SkipRun(ws, rest);
    } else {
      assert (w + ws + rest)[1..] == w[1..] + ws + rest;
      HyphenateRun(w[1..], ws, rest);
    }
  }

  lemma {:induction false} SkipRun(ws: string, rest: string)
    requires AllSpace(ws)
    requires rest == [] || !IsSpace(rest[0])
    ensures SkipSpaces(ws + rest) == rest
    decreases |ws|
  {
    if ws == [] {
      assert ws + rest == rest;
    } else {
      assert (ws + rest)[1..] == ws[1..] + rest;
      SkipRun(ws[1..], rest);
    }
  }

  /** Hyphenating twice is hyphenating once. */
  lemma HyphenateIdempotent(s: string)
    ensures Hyphenate(Hyphenate(s)) == Hyphenate(s)
  {
    HyphenateNoSpace(Hyphenate(s));
  }

  lemma LowerConcat(a: string, b: string)
    ensures Lower(a + b) == Lower(a) + Lower(b)
  {
  }

  lemma LowerKeepsSpace(c: char)
    ensures IsSpace(LowerChar(c)) == IsSpace(c)
  {
  }

  /** Lower-casing first and hyphenating after, as the source does, equals the other order. */
  lemma {:induction false} LowerThenHyphenate(s: string)
    ensures Hyphenate(Lower(s)) == Lower(Hyphenate(s))
    decreases |s|
  {
    if s != [] {
      LowerConcat([s[0]], s[1..]);
      assert s == [s[0]] + s[1..];
      LowerKeepsSpace(s[0]);
      if IsSpace(s[0]) {
        SkipSpacesLower(s);
        LowerThenHyphenate(SkipSpaces(s));
        LowerConcat("-", Hyphenate(SkipSpaces(s)));
      } else {
        LowerThenHyphenate(s[1..]);
        LowerConcat([s[0]], Hyphenate(s[1..]));
      }
    }
  }

  lemma {:induction false} SkipSpacesLower(s: string)
    ensures SkipSpaces(Lower(s)) == Lower(SkipSpaces(s))
    decreases |s|
  {
    if s != [] {
      LowerConcat([s[0]], s[1..]);
      assert s == [s[0]] + s[1..];
      LowerKeepsSpace(s[0]);
      if IsSpace(s[0]) {
        SkipSpacesLower(s[1..]);
      }
    }
  }

  const DownloadSuffix := "-shortcuts.html"

  /**
   `${title.toLowerCase().replace(/\s+/g, "-")}-shortcuts.html`: the name
   has no whitespace, no upper-case ASCII letter, and ends in the suffix.
   */
  function FileName(title: string): (r: string)
    ensures NoSpace(r)
    ensures forall i :: 0 <= i < |r| ==> !IsUpper(r[i])
    ensures |r| >= |DownloadSuffix| && r[|r| - |DownloadSuffix|..] == DownloadSuffix
  {
    var lowered := Lower(title);
    assert forall c :: c in lowered ==> !IsUpper(c);
    var r := Hyphenate(lowered) + DownloadSuffix;
    assert r[|r| - |DownloadSuffix|..] == DownloadSuffix;
    r
  }

  /** The default title gives `keyboard-shortcuts-shortcuts.html`. */
  lemma DefaultFileName()
    ensures FileName("Keyboard Shortcuts") == "keyboard-shortcuts" + DownloadSuffix
  {
    var t := "Keyboard Shortcuts";
    assert Hyphenate(Lower(t)) == "keyboard-shortcuts" by {
      LowerDefaultTitle();
      HyphenateDefaultTitle();
    }
  }

  lemma HyphenateDefaultTitle()
    ensures Hyphenate("keyboard" + " " + "shortcuts") == "keyboard-shortcuts"
  {
    assert NoSpace("keyboard") && NoSpace("shortcuts");
    HyphenateTwoWords("keyboard", "shortcuts");
  }

  /** Two words with one space between them are joined by one `-`. */
  lemma HyphenateTwoWords(w1: string, w2: string)
    requires NoSpace(w1) && NoSpace(w2)
    ensures Hyphenate(w1 + " " + w2) == w1 + "-" + w2
  {
    assert AllSpace(" ");
    HyphenateRun(w1, " ", w2);
    HyphenateNoSpace(w2);
  }

  lemma LowerDefaultTitle()
    ensures Lower("Keyboard Shortcuts") == "keyboard" + " " + "shortcuts"
  {
    assert "Keyboard Shortcuts" == "Keyboard" + " " + "Shortcuts";
    LowerConcat("Keyboard" + " ", "Shortcuts");
    LowerConcat("Keyboard", " ");
    LowerKeyboard();
    LowerShortcuts();
  }

  lemma LowerKeyboard()
    ensures Lower("Keyboard") == "keyboard"
  {
  }

  lemma LowerShortcuts()
    ensures Lower("Shortcuts") == "shortcuts"
  {
  }

  /** `pageSize.toUpperCase()`: the `@page size` value. */
  function PageRule(p: PageSize): (r: string)
    ensures r == "A4" || r == "A5" || r == "A6"
    ensures Lower(r) == PageSizeKey(p)
  {
    var r := Upper(PageSizeKey(p));
    assert r == match p case A4 => "A4" case A5 => "A5" case A6 => "A6";
    r
  }

  /** `PageRule` tells the page sizes apart. */
  lemma PageRuleInjective(p: PageSize, q: PageSize)
    requires PageRule(p) == PageRule(q)
    ensures p == q
  {
    assert PageSizeKey(p) == Lower(PageRule(p));
  }

  const Preamble := "\n<!DOCTYPE html>\n<html>\n<head>\n  <meta charset=\"UTF-8\">\n  "
  const TitleOpen := "<title>"
  const TitleClose := "</title>"
  const BodyStyle := "\n  <style>\n    body {\n      margin: 0;\n      padding: 20mm;\n      font-family: -apple-system, BlinkMacSystemFont, 'Segoe UI', 'Roboto', sans-serif;\n    }\n    @page {\n      "
  const SizeOpen := "size: "
  const SizeClose := ";"
  const PrintStyle := "\n      margin: 0;\n    }\n    @media print {\n      body {\n        margin: 0;\n        padding: 20mm;\n      }\n    }\n  </style>\n</head>\n<body>\n  "
  const DocumentEnd := "\n</body>\n</html>"

  /** `needle` occurs in `hay` as a contiguous part. */
  predicate Occurs(needle: string, hay: string) {
    exists i :: 0 <= i <= |hay| && needle <= hay[i..]
  }

  /**
   The downloaded HTML document: it carries the title as its `<title>`, the
   upper-cased page size as `@page size`, and the sheet's markup in its body.
   */
  function HtmlDocument(title: string, p: PageSize, markup: string): (r: string)
    ensures Occurs(TitleOpen + title + TitleClose, r)
    ensures Occurs(SizeOpen + PageRule(p) + SizeClose, r)
    ensures Occurs(markup, r)
  {
    TemplateOccurs(Preamble, TitleOpen + title + TitleClose, BodyStyle, SizeOpen + PageRule(p) + SizeClose,
                   PrintStyle, markup, DocumentEnd);
    Preamble + (TitleOpen + title + TitleClose) + BodyStyle + (SizeOpen + PageRule(p) + SizeClose) +
    PrintStyle + markup + DocumentEnd
  }

  /** The three filled-in holes of a seven-part template occur in it. */
  lemma TemplateOccurs(a: string, t: string, b: string, z: string, c: string, m: string, d: string)
    ensures Occurs(t, a + t + b + z + c + m + d)
    ensures Occurs(z, a + t + b + z + c + m + d)
    ensures Occurs(m, a + t + b + z + c + m + d)
  {
    var r := a + t + b + z + c + m + d;
    assert r == a + t + (b + z + c + m + d);
    SliceOf(a, t, b + z + c + m + d);
    assert r == (a + t + b) + z + (c + m + d);
    SliceOf(a + t + b, z, c + m + d);
    assert r == (a + t + b + z + c) + m + d;
    SliceOf(a + t + b + z + c, m, d);
  }

  lemma SliceOf(a: string, b: string, c: string)
    ensures Occurs(b, a + b + c)
  {
    assert (a + b + c)[|a|..] == b + c;
  }
}
