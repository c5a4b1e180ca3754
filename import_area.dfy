/** The area import script (TblGen/ImportArea.py): the choice of the search
    result, the search term without spaces, and the edit of the table file
    that replaces an area's `def` block with a freshly generated one. The
    web requests, the polygon and map extraction and the rebuild are not
    part of this model; their results are parameters. */
module ImportArea {
  import opened Wrappers

  /** One search result: its OSM type, id and display name. */
  datatype SearchResult = SearchResult(osmType: string, osmId: string, displayName: string)

  // ---------------------------------------------------------------------------
  // The search result and the search term
  // ---------------------------------------------------------------------------

  /** The results whose OSM type is "relation", in their order. */
  function Relations(results: seq<SearchResult>): (r: seq<SearchResult>)
    ensures forall k :: 0 <= k < |r| ==> r[k].osmType == "relation" && r[k] in results
    ensures (exists k :: 0 <= k < |results| && results[k].osmType == "relation") <==> |r| > 0
  {
    if results == [] then []
    else
      var rest := Relations(results[1..]);
      assert forall k :: 1 <= k < |results| ==> results[k] == results[1..][k - 1];
      if results[0].osmType == "relation" then [results[0]] + rest else rest
  }

  /** The result the script goes on with: None where no relation is left
      (the script exits) or the typed choice is not an index of the list;
      `choice` is `int(input(...))`, read only when there are several, and
      indexes as a Python list index, from the end when negative. */
  function SelectResult(results: seq<SearchResult>, choice: int): (r: Option<SearchResult>)
    ensures r.Some? ==> r.value.osmType == "relation" && r.value in results
    ensures r.None? <==> (|Relations(results)| == 0 || (|Relations(results)| > 1 && !(-|Relations(results)| <= choice < |Relations(results)|)))
    ensures |Relations(results)| == 1 ==> r == Some(Relations(results)[0])
  {
    var rs := Relations(results);
    if |rs| == 0 then None
    else if |rs| > 1 then
      if -|rs| <= choice < |rs| then Some(rs[if choice < 0 then choice + |rs| else choice]) else None
    else Some(rs[0])
  }

  /** `searchTerm.replace(' ', '')`. */
  function RemoveSpaces(s: string): (r: string)
    ensures forall k :: 0 <= k < |r| ==> r[k] != ' '
    ensures |r| <= |s|
  {
    if s == [] then []
    else (if s[0] == ' ' then [] else [s[0]]) + RemoveSpaces(s[1..])
  }

  /** The spaces are all that goes: a term without spaces is unchanged, so
      removing them twice is removing them once. */
  lemma {:induction false} RemoveSpacesKeeps(s: string)
    requires forall k :: 0 <= k < |s| ==> s[k] != ' '
    ensures RemoveSpaces(s) == s
  {
    if s != [] {
      RemoveSpacesKeeps(s[1..]);
      assert [s[0]] + s[1..] == s;
    }
  }

  lemma RemoveSpacesIdempotent(s: string)
    ensures RemoveSpaces(RemoveSpaces(s)) == RemoveSpaces(s)
  {
    RemoveSpacesKeeps(RemoveSpaces(s));
  }

  // ---------------------------------------------------------------------------
  // Finding the existing definition (`str.find`)
  // ---------------------------------------------------------------------------

  predicate Occurs(s: string, p: string, k: nat)
  {
    k + |p| <= |s| && s[k..k + |p|] == p
  }

  /** The first occurrence of `p` in `s` from `i` on; None for Python's -1. */
  function FindFrom(s: string, p: string, i: nat): (r: Option<nat>)
    ensures r.Some? ==> i <= r.value && Occurs(s, p, r.value)
    ensures r.Some? ==> forall k :: i <= k < r.value ==> !Occurs(s, p, k)
    ensures r.None? ==> forall k :: i <= k ==> !Occurs(s, p, k)
    decreases |s| - i
  {
    if i + |p| > |s| then None
    else if s[i..i + |p|] == p then Some(i)
    else FindFrom(s, p, i + 1)
  }

  function DefPrefix(name: string): string
  {
    "def " + name
  }

  /** As written: `tgContent.find('def ' + searchTerm)`, which also stops at
      the definition of a longer name that begins with `name`. */
  function FindDefinitionAsWritten(content: string, name: string): Option<nat>
  {
    FindFrom(content, DefPrefix(name), 0)
  }

  predicate IdentChar(c: char)
  {
    'a' <= c <= 'z' || 'A' <= c <= 'Z' || '0' <= c <= '9' || c == '_'
  }

  /** `def name` at `k`, followed by the end or by a character that cannot
      continue the name. */
  predicate DefinitionAt(s: string, name: string, k: nat)
  {
    Occurs(s, DefPrefix(name), k)
    && (k + |DefPrefix(name)| == |s| || !IdentChar(s[k + |DefPrefix(name)|]))
  }

  function FindDefinitionFrom(s: string, name: string, i: nat): (r: Option<nat>)
    ensures r.Some? ==> i <= r.value && DefinitionAt(s, name, r.value)
    ensures r.Some? ==> forall k :: i <= k < r.value ==> !DefinitionAt(s, name, k)
    ensures r.None? ==> forall k :: i <= k ==> !DefinitionAt(s, name, k)
    decreases |s| - i
  {
    if i + |DefPrefix(name)| > |s| then None
    else if DefinitionAt(s, name, i) then Some(i)
    else FindDefinitionFrom(s, name, i + 1)
  }

  /** The corrected search: the first definition of exactly `name`. */
  function FindDefinition(content: string, name: string): Option<nat>
  {
    FindDefinitionFrom(content, name, 0)
  }

  // ---------------------------------------------------------------------------
  // The end of the definition (the brace loop)
  // ---------------------------------------------------------------------------

  /** The occurrences of `ch` in `c[a..b]`. */
  function Count(c: string, a: nat, b: nat, ch: char): nat
    requires a <= b <= |c|
    decreases b - a
  {
    if a == b then 0 else Count(c, a, b - 1, ch) + if c[b - 1] == ch then 1 else 0
  }

  /** `c[a..k]` has opened a brace and closed every one it opened. */
  predicate Balanced(c: string, a: nat, k: nat)
    requires a <= k <= |c|
  {
    Count(c, a, k, '{') > 0 && Count(c, a, k, '{') == Count(c, a, k, '}')
  }

  /** A line end at `k` before any brace has opened. */
  predicate NewlineFirst(c: string, a: nat, k: nat)
    requires a <= k <= |c|
  {
    k < |c| && c[k] == '\n' && Count(c, a, k, '{') == 0
  }

  /** Where the loop may stop: the end of the text, balanced braces, or a
      line end with no brace opened. */
  predicate Stops(c: string, a: nat, k: nat)
    requires a <= k <= |c|
  {
    k == |c| || Balanced(c, a, k) || NewlineFirst(c, a, k)
  }

  /** The loop from index `i`, with the brace counts so far. */
  function EndFrom(c: string, i: nat, open: nat, close: nat): (r: nat)
    ensures i <= |c| ==> i <= r <= |c|
    decreases |c| - i
  {
    if !((open == 0 || open != close) && i < |c|) then i
    else if c[i] == '{' then EndFrom(c, i + 1, open + 1, close)
    else if c[i] == '}' then EndFrom(c, i + 1, open, close + 1)
    else if c[i] == '\n' && open == 0 then i
    else EndFrom(c, i + 1, open, close)
  }

  /** The loop of lines 101-110: the index after the definition that starts
      at `begin`. */
  method RemovalEnd(content: string, begin: nat) returns (index: nat)
    ensures index == EndFrom(content, begin, 0, 0)
  {
    var openBraces := 0;
    var closeBraces := 0;
    index := begin;
    while (openBraces == 0 || openBraces != closeBraces) && index < |content|
      invariant EndFrom(content, index, openBraces, closeBraces) == EndFrom(content, begin, 0, 0)
      decreases |content| - index
    {
      if content[index] == '{' {
        openBraces := openBraces + 1;
      } else if content[index] == '}' {
        closeBraces := closeBraces + 1;
      } else if content[index] == '\n' && openBraces == 0 {
        break;
      }
      index := index + 1;
    }
  }

  lemma {:induction false} EndFromStops(c: string, a: nat, i: nat, open: nat, close: nat)
    requires a <= i <= |c| && open == Count(c, a, i, '{') && close == Count(c, a, i, '}')
    requires forall k :: a <= k < i ==> !Stops(c, a, k)
    ensures i <= EndFrom(c, i, open, close) <= |c|
    ensures Stops(c, a, EndFrom(c, i, open, close))
    ensures forall k :: a <= k < EndFrom(c, i, open, close) ==> !Stops(c, a, k)
    decreases |c| - i
  {
    if (open == 0 || open != close) && i < |c| && !(c[i] == '\n' && open == 0) {
      assert !Stops(c, a, i);
      var open', close' := open + (if c[i] == '{' then 1 else 0), close + (if c[i] == '}' then 1 else 0);
      assert Count(c, a, i + 1, '{') == open';
      assert Count(c, a, i + 1, '}') == close';
      EndFromStops(c, a, i + 1, open', close');
    }
  }

  /** The removal ends at the first place the loop may stop: the end of the
      text, the brace that matches the first opened one (the block with it),
      or a line end met before any brace (kept). */
  lemma RemovalRegion(c: string, begin: nat)
    requires begin <= |c|
    ensures begin <= EndFrom(c, begin, 0, 0) <= |c|
    ensures Stops(c, begin, EndFrom(c, begin, 0, 0))
    ensures forall k :: begin <= k < EndFrom(c, begin, 0, 0) ==> !Stops(c, begin, k)
  {
    EndFromStops(c, begin, begin, 0, 0);
  }

  // ---------------------------------------------------------------------------
  // The new definition and the edit of the file
  // ---------------------------------------------------------------------------

  // The fixed pieces of the template, kept short.
  const DefText := "def "
  const AreaText := " : DefaultArea "
  const Nl4 := "\n    "
  const Nl8 := "\n        "
  const CountryKey := "country = \""
  const Quote := "\""
  const BoundaryKey := "boundary = "
  const InfoOpen := "BoundaryInfo<\""
  const ListOpen := "\", ["
  const TypeTag := "Tag<\"type\", "
  const BoundaryValue := "\"boundary\">,"
  const LevelTag := "Tag<\"admin_level\", \""
  const TagClose := "\">"
  const ListNext := "], ["
  const BoundaryTag := "Tag<\"boundary\", \""
  const ListClose := "]>"

  /** The generated text before its opening brace. */
  function CodeHead(name: string): string
  {
    DefText + name + AreaText
  }

  /** The generated text between its braces. */
  function CodeBody(name: string, country: string, boundary: string, adminLevel: string): string
  {
    Nl4 + CountryKey + country + Quote + Nl4 + BoundaryKey + InfoOpen + name + ListOpen
    + Nl8 + TypeTag + BoundaryValue + Nl8 + LevelTag + adminLevel + TagClose
    + Nl4 + ListNext + Nl8 + BoundaryTag + boundary + TagClose + ","
    + Nl8 + LevelTag + adminLevel + TagClose + Nl4 + ListClose + "\n"
  }

  /** The definition the script writes (the `code` template): no line end
      before it, none after its closing brace. */
  function Code(name: string, country: string, boundary: string, adminLevel: string): string
  {
    CodeHead(name) + "{" + CodeBody(name, country, boundary, adminLevel) + "}"
  }

  /** The content without `c[begin..end]`. */
  function Remove(c: string, begin: nat, end: nat): (r: string)
    requires begin <= end <= |c|
    ensures |r| == |c| - (end - begin)
    ensures r[..begin] == c[..begin] && r[begin..] == c[end..]
  {
    c[..begin] + c[end..]
  }

  /** Lines 128-131: the code after the content, after "\n\n" unless the
      content ends in a line end; None on empty content (`tgContent[-1]`
      raises). */
  function Append(c: string, code: string): (r: Option<string>)
    ensures r.None? <==> c == []
    ensures r.Some? ==> |r.value| >= |c| + |code| && r.value[..|c|] == c
    ensures r.Some? ==> r.value[|r.value| - |code|..] == code
    ensures r.Some? ==> r.value[|r.value| - |code| - 1] == '\n'
    ensures r.Some? && c[|c| - 1] == '\n' ==> |r.value| == |c| + |code|
    ensures r.Some? && c[|c| - 1] != '\n' ==> |r.value| == |c| + 2 + |code| && r.value[|c|..|c| + 2] == "\n\n"
  {
    if c == [] then None
    else
      var base := if c[|c| - 1] != '\n' then c + "\n\n" else c;
      assert base[|base| - 1] == '\n';
      Some(base + code)
  }

  /** The content without the area's current definition, found with `find`. */
  function Stripped(content: string, found: Option<nat>): string
  {
    match found
    case None => content
    case Some(b) =>
      if b <= |content| then Remove(content, b, EndFrom(content, b, 0, 0)) else content
  }

  /** The new table file, with the corrected search; None where the script
      raises. */
  function Imported(content: string, name: string, country: string, boundary: string, adminLevel: string): Option<string>
  {
    Append(Stripped(content, FindDefinition(content, name)), Code(name, country, boundary, adminLevel))
  }

  /** The same with the search as written. */
  function ImportedAsWritten(content: string, name: string, country: string, boundary: string, adminLevel: string): Option<string>
  {
    Append(Stripped(content, FindDefinitionAsWritten(content, name)), Code(name, country, boundary, adminLevel))
  }

  /** The table file and its backup. */
  class TableFiles {
    var tables: string
    var backup: string

    constructor (content: string)
      ensures tables == content && backup == []
    {
      tables := content;
      backup := [];
    }

    /** Lines 88-135: the backup is written first, then the table file,
        unless the script raises in between. */
    method Import(name: string, country: string, boundary: string, adminLevel: string)
      modifies this
      ensures backup == old(tables)
      ensures tables == match Imported(old(tables), name, country, boundary, adminLevel)
                        case None => old(tables)
                        case Some(t) => t
    {
      var content := tables;
      backup := content;
      var found := FindDefinition(content, name);
      if found.Some? {
        var beginIndex := found.value;
        var index := RemovalEnd(content, beginIndex);
        content := Remove(content, beginIndex, index);
      }
      assert content == Stripped(backup, found);
      var code := Code(name, country, boundary, adminLevel);
      if content == [] {
        return;
      }
      if content[|content| - 1] != '\n' {
        content := content + "\n\n";
      }
      content := content + code;
      assert Imported(backup, name, country, boundary, adminLevel) == Some(content);
      tables := content;
    }
  }

  // ---------------------------------------------------------------------------
  // Replacing a generated definition
  // ---------------------------------------------------------------------------

  predicate Plain(s: string)
  {
    '{' !in s && '}' !in s
  }

  predicate OneLine(s: string)
  {
    '\n' !in s
  }

  /** The loop runs through text without braces (and, before the first
      brace, without line ends). */
  lemma {:induction false} SkipPlain(c: string, i: nat, j: nat, open: nat, close: nat)
    requires i <= j < |c| && (open == 0 || open != close)
    requires forall k :: i <= k < j ==> c[k] != '{' && c[k] != '}' && (open == 0 ==> c[k] != '\n')
    ensures EndFrom(c, i, open, close) == EndFrom(c, j, open, close)
    decreases j - i
  {
    if i < j {
      SkipPlain(c, i + 1, j, open, close);
    }
  }

  /** Without braces in the parameters and a line end in the name, the head
      has neither braces nor line ends and the body no braces. */
  lemma CodeParts(name: string, country: string, boundary: string, adminLevel: string)
    requires Plain(name) && OneLine(name) && Plain(country) && Plain(boundary) && Plain(adminLevel)
    ensures Plain(CodeHead(name)) && OneLine(CodeHead(name))
    ensures Plain(CodeBody(name, country, boundary, adminLevel))
  {
    TextsPlain();
  }

  lemma TextsPlain()
    ensures Plain(DefText) && OneLine(DefText) && Plain(AreaText) && OneLine(AreaText)
    ensures Plain(Nl4) && Plain(Nl8) && Plain(CountryKey) && Plain(Quote) && Plain(BoundaryKey)
    ensures Plain(InfoOpen) && Plain(ListOpen) && Plain(TypeTag) && Plain(BoundaryValue)
    ensures Plain(LevelTag) && Plain(TagClose) && Plain(ListNext) && Plain(BoundaryTag)
    ensures Plain(ListClose) && Plain(",") && Plain("\n")
  {
    HeadTextsPlain();
    KeyTextsPlain();
    TagTextsPlain();
  }

  lemma HeadTextsPlain()
    ensures Plain(DefText) && OneLine(DefText) && Plain(AreaText) && OneLine(AreaText)
    ensures Plain(Nl4) && Plain(Nl8) && Plain(",") && Plain("\n")
  {
  }

  lemma KeyTextsPlain()
    ensures Plain(CountryKey) && Plain(Quote) && Plain(BoundaryKey) && Plain(InfoOpen) && Plain(ListOpen)
  {
  }

  lemma TagTextsPlain()
    ensures Plain(TypeTag) && Plain(BoundaryValue) && Plain(LevelTag) && Plain(TagClose)
    ensures Plain(ListNext) && Plain(BoundaryTag) && Plain(ListClose)
  {
  }

  lemma Middle(pre: string, x: string, post: string)
    ensures (pre + x + post)[|pre|..|pre| + |x|] == x
  {
  }

  /** A block `h + "{" + b + "}"` at `p`, with neither braces nor line ends
      in `h` and no braces in `b`, is removed up to its closing brace. */
  lemma BlockEnd(c: string, p: nat, h: string, b: string)
    requires Plain(h) && OneLine(h) && Plain(b)
    requires p + |h| + |b| + 2 <= |c| && c[p..p + |h| + |b| + 2] == h + "{" + b + "}"
    ensures EndFrom(c, p, 0, 0) == p + |h| + |b| + 2
  {
    var block := h + "{" + b + "}";
    var o := p + |h|;
    forall k | 0 <= k < |block| ensures c[p + k] == block[k] {
      assert c[p + k] == c[p..p + |block|][k];
    }
    forall k | p <= k < o ensures c[k] != '{' && c[k] != '}' && c[k] != '\n' {
      assert c[k] == block[k - p] == h[k - p];
    }
    SkipPlain(c, p, o, 0, 0);
    assert c[o] == block[|h|] == '{';
    forall k | o + 1 <= k < o + 1 + |b| ensures c[k] != '{' && c[k] != '}' {
      assert c[k] == block[k - p] == b[k - o - 1];
    }
    SkipPlain(c, o + 1, o + 1 + |b|, 1, 0);
    assert c[o + 1 + |b|] == block[|block| - 1] == '}';
  }

  lemma BlockAt(pre: string, block: string, post: string, h: string, b: string)
    requires Plain(h) && OneLine(h) && Plain(b) && block == h + "{" + b + "}"
    ensures EndFrom(pre + block + post, |pre|, 0, 0) == |pre| + |block|
  {
    Middle(pre, block, post);
    BlockEnd(pre + block + post, |pre|, h, b);
  }

  /** Importing an area whose generated definition comes first in the file
      replaces that definition: the loop removes it from its `def` to its
      closing brace, what stood before and after it stays, and the new
      definition goes at the end. */
  lemma ImportReplaces(pre: string, post: string, name: string, country: string, boundary: string, adminLevel: string,
                       country': string, boundary': string, adminLevel': string)
    requires Plain(name) && OneLine(name) && Plain(country) && Plain(boundary) && Plain(adminLevel)
    requires FindDefinition(pre + Code(name, country, boundary, adminLevel) + post, name) == Some(|pre|)
    ensures Imported(pre + Code(name, country, boundary, adminLevel) + post, name, country', boundary', adminLevel')
      == Append(pre + post, Code(name, country', boundary', adminLevel'))
  {
    var h, b := CodeHead(name), CodeBody(name, country, boundary, adminLevel);
    CodeParts(name, country, boundary, adminLevel);
    BlockAt(pre, Code(name, country, boundary, adminLevel), post, h, b);
    ReplaceBlock(pre, Code(name, country, boundary, adminLevel), post, name, Code(name, country', boundary', adminLevel'));
  }

  lemma ReplaceBlock(pre: string, block: string, post: string, name: string, code: string)
    requires FindDefinition(pre + block + post, name) == Some(|pre|)
    requires EndFrom(pre + block + post, |pre|, 0, 0) == |pre| + |block|
    ensures Append(Stripped(pre + block + post, FindDefinition(pre + block + post, name)), code)
      == Append(pre + post, code)
  {
    var c := pre + block + post;
    assert c[..|pre|] == pre;
    assert c[|pre| + |block|..] == post;
  }

  /** As written, the search for "A" stops at the definition of "AB" and the
      edit deletes it; the corrected search finds no definition of "A" and
      keeps the file. */
  lemma PrefixNameAsWritten()
    ensures FindDefinitionAsWritten("def AB {}\nx", "A") == Some(0)
    ensures Stripped("def AB {}\nx", FindDefinitionAsWritten("def AB {}\nx", "A")) == "\nx"
    ensures FindDefinition("def AB {}\nx", "A") == None
  {
    var c := "def AB {}\nx";
    ExampleFound(c);
    ExampleEnd(c);
    assert c[..0] + c[9..] == "\nx";
    ExampleNoExact(c);
  }

  lemma ExampleFound(c: string)
    requires c == "def AB {}\nx"
    ensures FindFrom(c, DefPrefix("A"), 0) == Some(0)
  {
    assert DefPrefix("A") == "def A";
    assert c[0..5] == "def A";
  }

  /** The brace loop over the example stops after its closing brace. */
  lemma ExampleEnd(c: string)
    requires c == "def AB {}\nx"
    ensures EndFrom(c, 0, 0, 0) == 9
  {
    assert EndFrom(c, 9, 1, 1) == 9;
    assert EndFrom(c, 8, 1, 0) == 9;
    assert EndFrom(c, 7, 0, 0) == 9;
    assert EndFrom(c, 6, 0, 0) == 9;
    assert EndFrom(c, 5, 0, 0) == 9;
    assert EndFrom(c, 4, 0, 0) == 9;
    assert EndFrom(c, 3, 0, 0) == 9;
    assert EndFrom(c, 2, 0, 0) == 9;
    assert EndFrom(c, 1, 0, 0) == 9;
  }

  /** In the example, `def A` is continued by `B` and occurs nowhere else. */
  lemma ExampleNoExact(c: string)
    requires c == "def AB {}\nx"
    ensures FindDefinitionFrom(c, "A", 0) == None
  {
    var p := DefPrefix("A");
    assert p == "def A";
    assert FindDefinitionFrom(c, "A", 7) == None;
    var i := 6;
    while i > 0
      invariant 0 <= i <= 6
      invariant FindDefinitionFrom(c, "A", i + 1) == None
    {
      FirstDiffers(c, p, i);
      i := i - 1;
    }
    assert c[5] == 'B' && IdentChar(c[5]);
  }

  /** A text whose character at `k` is not the pattern's first does not hold
      the pattern there. */
  lemma FirstDiffers(s: string, p: string, k: nat)
    requires p != [] && (k < |s| ==> s[k] != p[0])
    ensures !Occurs(s, p, k)
  {
    if k + |p| <= |s| {
      assert s[k..k + |p|][0] == s[k];
    }
  }
}
