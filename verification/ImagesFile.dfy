/**
 The images file: one `image=imageID,catalog` line per image. The adapter prints it from its map in
 sorted order, the tool provider parses it back.
 */
module ImagesFile {

  datatype ImageDescription = ImageDescription(imageId: string, catalog: string)

  type Images = map<string, ImageDescription>

  // The string functions of the parser

  /** `strings.Split` for a separator of one character. */
  function Split(s: string, sep: char): (parts: seq<string>)
    ensures |parts| > 0
  {
    if s == "" then [""] else
    var rest := Split(s[1..], sep);
    if s[0] == sep then [""] + rest else [[s[0]] + rest[0]] + rest[1..]
  }

  /** `strings.SplitN(s, sep, 2)`. */
  function SplitInTwo(s: string, sep: char): (parts: seq<string>)
    ensures 1 <= |parts| <= 2
  {
    if s == "" then [""] else
    if s[0] == sep then ["", s[1..]] else
    var rest := SplitInTwo(s[1..], sep);
    [[s[0]] + rest[0]] + rest[1..]
  }

  function TrimLeft(s: string, cut: char): string {
    if s != "" && s[0] == cut then TrimLeft(s[1..], cut) else s
  }

  function TrimRight(s: string, cut: char): string {
    if s != "" && s[|s| - 1] == cut then TrimRight(s[..|s| - 1], cut) else s
  }

  /** `strings.Trim` for a cutset of one character. */
  function Trim(s: string, cut: char): string {
    TrimRight(TrimLeft(s, cut), cut)
  }

  /** The white space of `strings.TrimSpace`, over code points. */
  predicate IsSpace(c: char) {
    c in "\t\n\U{000B}\U{000C}\r \U{0085}\U{00A0}\U{1680}\U{2028}\U{2029}\U{202F}\U{205F}\U{3000}"
    || '\U{2000}' <= c <= '\U{200A}'
  }

  /** `strings.TrimSpace(line) == ""`. */
  predicate IsBlank(line: string) {
    forall i :: 0 <= i < |line| ==> IsSpace(line[i])
  }

  // The parser

  function ParseDescription(parts: seq<string>): ImageDescription {
    if |parts| > 1 then
      var description := SplitInTwo(parts[1], ',');
      ImageDescription(Trim(description[0], ' '), if |description| > 1 then Trim(description[1], ' ') else "")
    else
      ImageDescription("", "")
  }

  function ParseLine(images: Images, line: string): Images {
    if IsBlank(line) then images else
    var parts := Split(line, '=');
    images[Trim(parts[0], ' ') := ParseDescription(parts)]
  }

  function ParseLines(images: Images, lines: seq<string>): Images
    decreases |lines|
  {
    if lines == [] then images else ParseLines(ParseLine(images, lines[0]), lines[1..])
  }

  function Parse(text: string): Images {
    ParseLines(map[], Split(Trim(text, '\n'), '\n'))
  }

  lemma {:induction false} ParseLinesAppend(images: Images, a: seq<string>, b: seq<string>)
    ensures ParseLines(images, a + b) == ParseLines(ParseLines(images, a), b)
    decreases |a|
  {
    if a == [] {
      assert a + b == b;
    } else {
      assert (a + b)[1..] == a[1..] + b;
      ParseLinesAppend(ParseLine(images, a[0]), a[1..], b);
    }
  }

  /** `getCatalogImagesFromConfigMap`, from the content of the file on. */
  method GetCatalogImages(text: string) returns (result: Images)
    ensures result == Parse(text)
  {
    result := map[];
    var lines := Split(Trim(text, '\n'), '\n');
    for n := 0 to |lines|
      invariant result == ParseLines(map[], lines[..n])
    {
      var line := lines[n];
      assert lines[..n + 1] == lines[..n] + [line];
      ParseLinesAppend(map[], lines[..n], [line]);
      assert ParseLines(result, [line]) == ParseLine(result, line);
      if IsBlank(line) {
        continue;
      }
      var parts := Split(line, '=');
      var imageName := Trim(parts[0], ' ');
      var imageId, catalog := "", "";
      if |parts| > 1 {
        var description := SplitInTwo(parts[1], ',');
        imageId := Trim(description[0], ' ');
        if |description| > 1 {
          catalog := Trim(description[1], ' ');
        }
      }
      result := result[imageName := ImageDescription(imageId, catalog)];
    }
    assert lines[..|lines|] == lines;
  }

  // The printer

  /** Lexicographic order on code points, which for UTF-8 text is Go's order on bytes. */
  predicate AtMost(a: string, b: string) {
    a == "" || (b != "" && (a[0] < b[0] || (a[0] == b[0] && AtMost(a[1..], b[1..]))))
  }

  lemma {:induction false} AtMostTotal(a: string, b: string)
    ensures AtMost(a, b) || AtMost(b, a)
  {
    if a != "" && b != "" && a[0] == b[0] {
      AtMostTotal(a[1..], b[1..]);
    }
  }

  lemma {:induction false} AtMostAntisymmetric(a: string, b: string)
    requires AtMost(a, b) && AtMost(b, a)
    ensures a == b
  {
    if a != "" {
      AtMostAntisymmetric(a[1..], b[1..]);
    }
  }

  lemma {:induction false} AtMostTransitive(a: string, b: string, c: string)
    requires AtMost(a, b) && AtMost(b, c)
    ensures AtMost(a, c)
  {
    if a != "" && a[0] == b[0] && b[0] == c[0] {
      AtMostTransitive(a[1..], b[1..], c[1..]);
    }
  }

  ghost predicate Sorted(ks: seq<string>) {
    forall i, j :: 0 <= i < j < |ks| ==> AtMost(ks[i], ks[j]) && ks[i] != ks[j]
  }

  /** `ks` are the elements of `s`, in order and each once. */
  ghost predicate SortedListOf(ks: seq<string>, s: set<string>) {
    Sorted(ks) && forall k :: k in ks <==> k in s
  }

  /** The sorted list of a set is unique, so it forgets the order the map was iterated in. */
  lemma {:induction false} SortedListUnique(a: seq<string>, b: seq<string>, s: set<string>)
    requires SortedListOf(a, s) && SortedListOf(b, s)
    ensures a == b
  {
    EmptyTogether(a, s);
    EmptyTogether(b, s);
    if a != [] {
      assert a[0] in s && a[0] in b;
      assert b != [] && b[0] in b;
      FirstIsLeast(a, b[0]);
      FirstIsLeast(b, a[0]);
      AtMostAntisymmetric(a[0], b[0]);
      TailSorted(a, s);
      TailSorted(b, s);
      SortedListUnique(a[1..], b[1..], s - {a[0]});
    }
  }

  lemma EmptyTogether(a: seq<string>, s: set<string>)
    requires forall k :: k in a <==> k in s
    ensures a == [] <==> s == {}
  {
    if a != [] {
      assert a[0] in a;
    }
  }

  lemma FirstIsLeast(a: seq<string>, k: string)
    requires Sorted(a) && k in a
    ensures AtMost(a[0], k)
  {
    AtMostTotal(k, k);
  }

  lemma TailSorted(a: seq<string>, s: set<string>)
    requires a != [] && SortedListOf(a, s)
    ensures SortedListOf(a[1..], s - {a[0]})
  {
    forall k
      ensures k in a[1..] <==> k in s - {a[0]}
    {
      if k in a[1..] {
        var i :| 0 <= i < |a| - 1 && a[1..][i] == k;
        assert a[i + 1] == k;
      }
      if k in s - {a[0]} {
        var i :| 0 <= i < |a| && a[i] == k;
        assert a[1..][i - 1] == k;
      }
    }
  }

  function Insert(ks: seq<string>, k: string): seq<string> {
    if ks == [] || AtMost(k, ks[0]) then [k] + ks else [ks[0]] + Insert(ks[1..], k)
  }

  lemma {:induction false} InsertElements(ks: seq<string>, k: string)
    ensures forall x :: x in Insert(ks, k) <==> x == k || x in ks
  {
    if ks != [] && !AtMost(k, ks[0]) {
      InsertElements(ks[1..], k);
      assert ks == [ks[0]] + ks[1..];
    }
  }

  lemma SortedFrom(k: string, ks: seq<string>)
    requires Sorted(ks)
    requires forall x :: x in ks ==> AtMost(k, x) && x != k
    ensures Sorted([k] + ks)
  {
    forall i, j | 0 <= i < j < |ks| + 1
      ensures AtMost(([k] + ks)[i], ([k] + ks)[j]) && ([k] + ks)[i] != ([k] + ks)[j]
    {
      assert ks[j - 1] in ks;
    }
  }

  lemma {:induction false} InsertSorted(ks: seq<string>, k: string)
    requires Sorted(ks) && k !in ks
    ensures Sorted(Insert(ks, k))
  {
    if ks == [] {
    } else if AtMost(k, ks[0]) {
      forall x | x in ks
        ensures AtMost(k, x) && x != k
      {
        FirstIsLeast(ks, x);
        AtMostTransitive(k, ks[0], x);
      }
      SortedFrom(k, ks);
    } else {
      InsertSorted(ks[1..], k);
      InsertElements(ks[1..], k);
      AtMostTotal(k, ks[0]);
      forall x | x in Insert(ks[1..], k)
        ensures AtMost(ks[0], x) && x != ks[0]
      {
        if x != k {
          var i :| 0 <= i < |ks| - 1 && ks[1..][i] == x;
          assert ks[i + 1] == x;
        }
      }
      SortedFrom(ks[0], Insert(ks[1..], k));
    }
  }

  /** `sort.Strings` on distinct strings. */
  method SortStrings(keys: seq<string>) returns (sorted: seq<string>)
    requires forall i, j :: 0 <= i < j < |keys| ==> keys[i] != keys[j]
    ensures Sorted(sorted) && forall k :: k in sorted <==> k in keys
  {
    sorted := [];
    for n := 0 to |keys|
      invariant Sorted(sorted) && forall k :: k in sorted <==> k in keys[..n]
    {
      InsertSorted(sorted, keys[n]);
      InsertElements(sorted, keys[n]);
      sorted := Insert(sorted, keys[n]);
    }
    assert keys[..|keys|] == keys;
  }

  ghost function SortedKeys(s: set<string>): (ks: seq<string>)
    ensures SortedListOf(ks, s)
  {
    if s == {} then [] else
    var x :| x in s;
    InsertSorted(SortedKeys(s - {x}), x);
    InsertElements(SortedKeys(s - {x}), x);
    Insert(SortedKeys(s - {x}), x)
  }

  /** `imageIDAndCatalog.String`. */
  function DescriptionText(d: ImageDescription): string {
    d.imageId + "," + d.catalog
  }

  function RenderKeys(ks: seq<string>, images: Images): string
    requires forall k :: k in ks ==> k in images
  {
    if ks == [] then "" else
    assert forall k :: k in ks[1..] ==> k in ks;
    ks[0] + "=" + DescriptionText(images[ks[0]]) + "\n" + RenderKeys(ks[1..], images)
  }

  /** The text of the images file, as a function of the map alone. */
  ghost function Render(images: Images): string {
    RenderKeys(SortedKeys(images.Keys), images)
  }

  lemma {:induction false} RenderAppend(a: seq<string>, k: string, images: Images)
    requires forall x :: x in a + [k] ==> x in images
    ensures forall x :: x in a ==> x in images
    ensures RenderKeys(a + [k], images) == RenderKeys(a, images) + (k + "=" + DescriptionText(images[k]) + "\n")
  {
    assert forall x :: x in a ==> x in a + [k];
    if a == [] {
      assert a + [k] == [k];
      assert RenderKeys([], images) == "";
    } else {
      assert (a + [k])[1..] == a[1..] + [k];
      assert forall x :: x in a[1..] + [k] ==> x in a + [k];
      RenderAppend(a[1..], k, images);
    }
  }

  /** The printing loop of `pullImages`: whatever order the map is iterated in, the text is the same. */
  method PrintImages(images: Images) returns (content: string)
    ensures content == Render(images)
  {
    var keys: seq<string> := [];
    var rest := images.Keys;
    while rest != {}
      invariant rest <= images.Keys
      invariant forall k :: k in keys <==> k in images && k !in rest
      invariant forall i, j :: 0 <= i < j < |keys| ==> keys[i] != keys[j]
    {
      var k :| k in rest;
      rest := rest - {k};
      keys := keys + [k];
    }
    keys := SortStrings(keys);
    content := "";
    for n := 0 to |keys|
      invariant forall k :: k in keys[..n] ==> k in images
      invariant content == RenderKeys(keys[..n], images)
    {
      assert keys[..n + 1] == keys[..n] + [keys[n]];
      assert keys[n] in keys;
      RenderAppend(keys[..n], keys[n], images);
      content := content + (keys[n] + "=" + DescriptionText(images[keys[n]]) + "\n");
    }
    assert keys[..|keys|] == keys;
    SortedListUnique(keys, SortedKeys(images.Keys), images.Keys);
  }

  // Round trip

  predicate Edgeless(s: string) {
    s == "" || (s[0] != ' ' && s[|s| - 1] != ' ')
  }

  /** What survives as one field of a line. */
  predicate Field(s: string) {
    '\n' !in s && '=' !in s && Edgeless(s)
  }

  predicate WellFormedEntry(image: string, d: ImageDescription) {
    Field(image) && Field(d.imageId) && ',' !in d.imageId && Field(d.catalog)
  }

  predicate WellFormed(images: Images) {
    forall image :: image in images ==> WellFormedEntry(image, images[image])
  }

  lemma {:induction false} SplitFirst(a: string, sep: char, b: string)
    requires sep !in a
    ensures Split(a, sep) == [a]
    ensures Split(a + [sep] + b, sep) == [a] + Split(b, sep)
  {
    var s := a + [sep] + b;
    if a == "" {
      assert s[1..] == b;
    } else {
      SplitFirst(a[1..], sep, b);
      assert s[1..] == a[1..] + [sep] + b;
      assert [a[0]] + a[1..] == a;
    }
  }

  lemma {:induction false} SplitInTwoFirst(a: string, sep: char, b: string)
    requires sep !in a
    ensures SplitInTwo(a + [sep] + b, sep) == [a, b]
  {
    var s := a + [sep] + b;
    if a == "" {
      assert s[1..] == b;
    } else {
      SplitInTwoFirst(a[1..], sep, b);
      assert s[1..] == a[1..] + [sep] + b;
      assert [a[0]] + a[1..] == a;
    }
  }

  lemma {:induction false} SplitLast(s: string, sep: char)
    ensures Split(s + [sep], sep) == Split(s, sep) + [""]
  {
    if s == "" {
      assert ([sep])[1..] == "";
    } else {
      SplitLast(s[1..], sep);
      assert (s + [sep])[1..] == s[1..] + [sep];
    }
  }

  lemma BlankLine(images: Images, a: seq<string>, b: seq<string>)
    ensures ParseLines(images, [""] + b) == ParseLines(images, b)
    ensures ParseLines(images, a + [""]) == ParseLines(images, a)
  {
    ParseLinesAppend(images, [""], b);
    ParseLinesAppend(images, a, [""]);
    assert ParseLines(images, [""]) == images;
    assert ParseLines(ParseLines(images, a), [""]) == ParseLines(images, a);
  }

  lemma {:induction false} LeadingNewlines(images: Images, text: string)
    ensures ParseLines(images, Split(TrimLeft(text, '\n'), '\n')) == ParseLines(images, Split(text, '\n'))
  {
    if text != "" && text[0] == '\n' {
      LeadingNewlines(images, text[1..]);
      BlankLine(images, [], Split(text[1..], '\n'));
    }
  }

  lemma {:induction false} TrailingNewlines(images: Images, text: string)
    ensures ParseLines(images, Split(TrimRight(text, '\n'), '\n')) == ParseLines(images, Split(text, '\n'))
  {
    if text != "" && text[|text| - 1] == '\n' {
      var rest := text[..|text| - 1];
      TrailingNewlines(images, rest);
      SplitLast(rest, '\n');
      assert rest + ['\n'] == text;
      BlankLine(images, Split(rest, '\n'), []);
    }
  }

  /** Trimming the file's newlines only adds or removes blank lines, which the parser skips. */
  lemma ParseIgnoresOuterNewlines(text: string)
    ensures Parse(text) == ParseLines(map[], Split(text, '\n'))
  {
    TrailingNewlines(map[], TrimLeft(text, '\n'));
    LeadingNewlines(map[], text);
  }

  lemma EdgelessTrim(s: string)
    requires Edgeless(s)
    ensures Trim(s, ' ') == s
  {
  }

  lemma ParsePrintedLine(images: Images, image: string, d: ImageDescription)
    requires WellFormedEntry(image, d)
    ensures '\n' !in image + "=" + DescriptionText(d)
    ensures ParseLine(images, image + "=" + DescriptionText(d)) == images[image := d]
  {
    var line := image + "=" + DescriptionText(d);
    assert line[|image|] == '=' && !IsSpace('=');
    var description := DescriptionText(d);
    assert '=' !in description && '\n' !in description;
    SplitFirst(image, '=', description);
    SplitFirst(description, '=', "");
    assert line == image + ['='] + description;
    SplitInTwoFirst(d.imageId, ',', d.catalog);
    assert description == d.imageId + [','] + d.catalog;
    EdgelessTrim(image);
    EdgelessTrim(d.imageId);
    EdgelessTrim(d.catalog);
  }

  /** `images` restricted to the names listed. */
  function Listed(ks: seq<string>, images: Images): Images {
    map k | k in images.Keys && k in ks :: images[k]
  }

  lemma OneMoreListed(before: Images, ks: seq<string>, images: Images)
    requires ks != [] && ks[0] in images
    ensures before[ks[0] := images[ks[0]]] + Listed(ks[1..], images) == before + Listed(ks, images)
  {
    assert forall x :: x in ks <==> x == ks[0] || x in ks[1..];
  }

  lemma {:induction false} ParseRendered(before: Images, ks: seq<string>, images: Images)
    requires WellFormed(images) && forall k :: k in ks ==> k in images
    ensures ParseLines(before, Split(RenderKeys(ks, images), '\n')) == before + Listed(ks, images)
    decreases |ks|
  {
    if ks == [] {
      assert ParseLines(before, [""]) == before;
    } else {
      var k, rest := ks[0], ks[1..];
      assert k in ks && forall x :: x in rest ==> x in ks;
      var line, tail := k + "=" + DescriptionText(images[k]), RenderKeys(rest, images);
      assert RenderKeys(ks, images) == line + ['\n'] + tail;
      assert WellFormedEntry(k, images[k]);
      ParsePrintedLine(before, k, images[k]);
      SplitFirst(line, '\n', tail);
      ParseOneLine(before, line, Split(tail, '\n'));
      ParseRendered(before[k := images[k]], rest, images);
      OneMoreListed(before, ks, images);
    }
  }

  lemma ParseOneLine(images: Images, line: string, rest: seq<string>)
    ensures ParseLines(images, [line] + rest) == ParseLines(ParseLine(images, line), rest)
  {
    assert ([line] + rest)[1..] == rest;
  }

  lemma PrintedFileParsesBack(images: Images)
    requires WellFormed(images)
    ensures Parse(Render(images)) == images
  {
    hide ParseLines, Split, RenderKeys, WellFormed;
    var ks := SortedKeys(images.Keys);
    ParseIgnoresOuterNewlines(Render(images));
    ParseRendered(map[], ks, images);
    assert map[] + Listed(ks, images) == images;
  }

  // Whatever is parsed is well formed

  lemma {:induction false} TrimKeeps(s: string, cut: char)
    ensures forall c :: c in Trim(s, cut) ==> c in s
    ensures Trim(s, cut) == "" || (Trim(s, cut)[0] != cut && Trim(s, cut)[|Trim(s, cut)| - 1] != cut)
  {
    TrimLeftKeeps(s, cut);
    TrimRightKeeps(TrimLeft(s, cut), cut);
  }

  lemma {:induction false} TrimLeftKeeps(s: string, cut: char)
    ensures forall c :: c in TrimLeft(s, cut) ==> c in s
    ensures TrimLeft(s, cut) == "" || TrimLeft(s, cut)[0] != cut
  {
    if s != "" && s[0] == cut {
      TrimLeftKeeps(s[1..], cut);
    }
  }

  lemma {:induction false} TrimRightKeeps(s: string, cut: char)
    ensures TrimRight(s, cut) <= s
    ensures TrimRight(s, cut) == "" || TrimRight(s, cut)[|TrimRight(s, cut)| - 1] != cut
  {
    if s != "" && s[|s| - 1] == cut {
      TrimRightKeeps(s[..|s| - 1], cut);
    }
  }

  lemma {:induction false} SplitParts(s: string, sep: char)
    ensures forall part :: part in Split(s, sep) ==> sep !in part && forall c :: c in part ==> c in s
  {
    if s != "" {
      var rest := Split(s[1..], sep);
      SplitParts(s[1..], sep);
      assert rest[0] in rest && forall part :: part in rest[1..] ==> part in rest;
    }
  }

  lemma {:induction false} SplitInTwoParts(s: string, sep: char)
    ensures sep !in SplitInTwo(s, sep)[0]
    ensures forall part :: part in SplitInTwo(s, sep) ==> forall c :: c in part ==> c in s
  {
    if s != "" && s[0] != sep {
      var rest := SplitInTwo(s[1..], sep);
      SplitInTwoParts(s[1..], sep);
      assert rest[0] in rest && forall part :: part in rest[1..] ==> part in rest;
    }
  }

  lemma ParsedLineWellFormed(images: Images, line: string)
    requires WellFormed(images) && '\n' !in line
    ensures WellFormed(ParseLine(images, line))
  {
    var parts := Split(line, '=');
    SplitParts(line, '=');
    assert parts[0] in parts;
    TrimKeeps(parts[0], ' ');
    if |parts| > 1 {
      var description := SplitInTwo(parts[1], ',');
      assert parts[1] in parts && description[0] in description;
      SplitInTwoParts(parts[1], ',');
      TrimKeeps(description[0], ' ');
      if |description| > 1 {
        assert description[1] in description;
        TrimKeeps(description[1], ' ');
      }
    }
  }

  lemma {:induction false} ParsedLinesWellFormed(images: Images, lines: seq<string>)
    requires WellFormed(images) && forall line :: line in lines ==> '\n' !in line
    ensures WellFormed(ParseLines(images, lines))
    decreases |lines|
  {
    if lines != [] {
      assert lines[0] in lines && forall line :: line in lines[1..] ==> line in lines;
      ParsedLineWellFormed(images, lines[0]);
      ParsedLinesWellFormed(ParseLine(images, lines[0]), lines[1..]);
    }
  }

  lemma ParsedIsWellFormed(text: string)
    ensures WellFormed(Parse(text))
  {
    var trimmed := Trim(text, '\n');
    SplitParts(trimmed, '\n');
    ParsedLinesWellFormed(map[], Split(trimmed, '\n'));
  }

  // What the parser gives, on any text

  ghost predicate OnlySpaces(s: string) {
    forall c :: c in s ==> c == ' '
  }

  lemma {:induction false} TrimLeftIs(s: string) returns (left: string)
    ensures s == left + TrimLeft(s, ' ') && OnlySpaces(left)
    ensures TrimLeft(s, ' ') != "" ==> TrimLeft(s, ' ')[0] != ' '
    decreases |s|
  {
    left := "";
    if s != "" && s[0] == ' ' {
      var rest := TrimLeftIs(s[1..]);
      left := " " + rest;
      assert s == [s[0]] + s[1..];
    }
  }

  lemma {:induction false} TrimRightIs(s: string) returns (right: string)
    ensures s == TrimRight(s, ' ') + right && OnlySpaces(right)
    ensures TrimRight(s, ' ') != "" ==> TrimRight(s, ' ')[|TrimRight(s, ' ')| - 1] != ' '
    decreases |s|
  {
    right := "";
    if s != "" && s[|s| - 1] == ' ' {
      var rest := TrimRightIs(s[..|s| - 1]);
      right := rest + " ";
      assert s == s[..|s| - 1] + [s[|s| - 1]];
    }
  }

  /** Trimming takes the spaces at both ends away, and nothing else. */
  lemma TrimIs(s: string) returns (left: string, right: string)
    ensures s == left + Trim(s, ' ') + right
    ensures forall c :: c in left || c in right ==> c == ' '
    ensures Trim(s, ' ') != "" ==> Trim(s, ' ')[0] != ' ' && Trim(s, ' ')[|Trim(s, ' ')| - 1] != ' '
  {
    left := TrimLeftIs(s);
    right := TrimRightIs(TrimLeft(s, ' '));
    TrimRightKeeps(TrimLeft(s, ' '), ' ');
  }

  /** White space is tab to carriage return, the space, and the other white-space code points of Unicode. */
  lemma WhiteSpaceIs(c: char)
    ensures IsSpace(c) <==>
      || 0x09 <= c as int <= 0x0D || c as int in {0x20, 0x85, 0xA0, 0x1680, 0x2028, 0x2029, 0x202F, 0x205F, 0x3000}
      || 0x2000 <= c as int <= 0x200A
  {
  }

  /** The first character either separates or starts the first part. */
  function PutFirst(c: char, sep: char, parts: seq<string>): seq<string>
    requires |parts| > 0
  {
    if c == sep then [""] + parts else [[c] + parts[0]] + parts[1..]
  }

  lemma SplitHead(s: string, sep: char)
    requires s != ""
    ensures Split(s, sep) == PutFirst(s[0], sep, Split(s[1..], sep))
  {
  }

  lemma JoinHead(c: char, sep: char, a: seq<string>, b: seq<string>)
    requires |a| > 0
    ensures PutFirst(c, sep, a + b) == PutFirst(c, sep, a) + b
  {
    assert (a + b)[1..] == a[1..] + b;
  }

  lemma {:induction false} SplitAppend(a: string, b: string, sep: char)
    ensures Split(a + [sep] + b, sep) == Split(a, sep) + Split(b, sep)
    decreases |a|
  {
    hide Split, PutFirst;
    var s := a + [sep] + b;
    if a == "" {
      SplitFirst(a, sep, b);
    } else {
      SplitAppend(a[1..], b, sep);
      SplitHead(a, sep);
      SplitHead(s, sep);
      assert s[1..] == a[1..] + [sep] + b;
      JoinHead(s[0], sep, Split(a[1..], sep), Split(b, sep));
    }
  }

  lemma {:induction false} ParseLinesOver(images: Images, lines: seq<string>)
    ensures ParseLines(images, lines) == images + ParseLines(map[], lines)
    decreases |lines|
  {
    if lines != [] {
      ParseLinesOver(ParseLine(images, lines[0]), lines[1..]);
      ParseLinesOver(ParseLine(map[], lines[0]), lines[1..]);
    }
  }

  /** The lines of a text count one after the other: of two lines for one name, the later one does. */
  lemma LaterLinesCount(a: string, b: string)
    ensures Parse(a + "\n" + b) == Parse(a) + Parse(b)
  {
    hide ParseLine, ParseLines;
    SplitAppend(a, b, '\n');
    ParseIgnoresOuterNewlines(a);
    ParseIgnoresOuterNewlines(b);
    ParseIgnoresOuterNewlines(a + "\n" + b);
    ParseLinesAppend(map[], Split(a, '\n'), Split(b, '\n'));
    ParseLinesOver(Parse(a), Split(b, '\n'));
  }

  lemma ParseSingle(line: string)
    requires '\n' !in line
    ensures Parse(line) == ParseLine(map[], line)
  {
    ParseIgnoresOuterNewlines(line);
    SplitFirst(line, '\n', "");
  }

  /** A line of white space adds nothing. */
  lemma BlankLineParses(line: string)
    requires '\n' !in line && forall i :: 0 <= i < |line| ==> IsSpace(line[i])
    ensures Parse(line) == map[]
  {
    ParseSingle(line);
  }

  /** An image listed by its name alone has neither an image ID nor a catalog. */
  lemma BareNameParses(name: string)
    requires '\n' !in name && '=' !in name && exists i :: 0 <= i < |name| && !IsSpace(name[i])
    ensures Parse(name) == map[Trim(name, ' ') := ImageDescription("", "")]
  {
    ParseSingle(name);
    SplitFirst(name, '=', "");
  }

  /** What stands between the first `=` of a line and its end, or its second `=`. */
  ghost predicate DescriptionOf(line: string, name: string, description: string) {
    && '\n' !in line && '=' !in name && '=' !in description
    && (line == name + "=" + description || exists rest :: line == name + "=" + description + "=" + rest)
  }

  lemma DescribedLine(line: string, name: string, description: string)
    requires DescriptionOf(line, name, description)
    ensures !IsBlank(line) && |Split(line, '=')| > 1
    ensures Split(line, '=')[0] == name && Split(line, '=')[1] == description
  {
    assert line[|name|] == '=' && !IsSpace('=');
    if line == name + "=" + description {
      SplitFirst(name, '=', description);
      SplitFirst(description, '=', "");
    } else {
      var rest :| line == name + "=" + description + "=" + rest;
      assert line == name + ['='] + (description + ['='] + rest);
      SplitFirst(name, '=', description + ['='] + rest);
      SplitFirst(description, '=', rest);
    }
  }

  /** Without a comma, the description is the image ID. */
  lemma IdAloneParses(line: string, name: string, id: string)
    requires DescriptionOf(line, name, id) && ',' !in id
    ensures Parse(line) == map[Trim(name, ' ') := ImageDescription(Trim(id, ' '), "")]
  {
    ParseSingle(line);
    DescribedLine(line, name, id);
    NoSeparator(id, ',');
  }

  lemma {:induction false} NoSeparator(s: string, sep: char)
    requires sep !in s
    ensures SplitInTwo(s, sep) == [s]
  {
    if s != "" {
      NoSeparator(s[1..], sep);
      assert s == [s[0]] + s[1..];
    }
  }

  /** With one, the ID is what precedes the first comma and the catalog all that follows it. */
  lemma IdAndCatalogParse(line: string, name: string, id: string, catalog: string)
    requires DescriptionOf(line, name, id + "," + catalog) && ',' !in id
    ensures Parse(line) == map[Trim(name, ' ') := ImageDescription(Trim(id, ' '), Trim(catalog, ' '))]
  {
    ParseSingle(line);
    DescribedLine(line, name, id + "," + catalog);
    SplitInTwoFirst(id, ',', catalog);
  }

  // What the printer gives, on any map

  /** `AtMost` compares at the first difference, and puts a prefix first. */
  lemma {:induction false} AtMostIs(a: string, b: string)
    ensures AtMost(a, b) <==> a <= b || exists i ::
      0 <= i < |a| && i < |b| && a[..i] == b[..i] && a[i] < b[i]
    decreases |a|
  {
    if a != "" && b != "" && a[0] == b[0] {
      AtMostIs(a[1..], b[1..]);
      if i :| 0 <= i < |a| - 1 && i < |b| - 1 && a[1..][..i] == b[1..][..i] && a[1..][i] < b[1..][i] {
        assert a[..i + 1] == [a[0]] + a[1..][..i] && b[..i + 1] == [b[0]] + b[1..][..i];
        assert a[i + 1] < b[i + 1];
      }
      if i :| 0 <= i < |a| && i < |b| && a[..i] == b[..i] && a[i] < b[i] {
        assert a[1..][..i - 1] == a[..i][1..] && b[1..][..i - 1] == b[..i][1..];
        assert a[1..][i - 1] < b[1..][i - 1];
      }
    } else if a != "" && b != "" && a[0] < b[0] {
      assert a[..0] == b[..0];
    }
  }

  lemma LastOfSorted(ks: seq<string>, k: string)
    requires Sorted(ks) && forall x :: x in ks ==> AtMost(x, k) && x != k
    ensures Sorted(ks + [k])
  {
    forall i, j | 0 <= i < j < |ks| + 1
      ensures AtMost((ks + [k])[i], (ks + [k])[j]) && (ks + [k])[i] != (ks + [k])[j]
    {
      assert ks[i] in ks;
    }
  }

  /** An empty map prints nothing, and the last name in order prints the last line. */
  lemma PrintsLastLine(images: Images, k: string, d: ImageDescription)
    requires k !in images && forall x :: x in images ==> AtMost(x, k)
    ensures Render(map[]) == ""
    ensures Render(images[k := d]) == Render(images) + k + "=" + d.imageId + "," + d.catalog + "\n"
  {
    hide SortedKeys, AtMost;
    var ks, more := SortedKeys(images.Keys), images[k := d];
    GreatestComesLast(images.Keys, k);
    assert more.Keys == images.Keys + {k};
    RenderAppend(ks, k, more);
    RenderSame(ks, images, more);
    LineInOne(Render(images), k, d);
    PrintsNothing();
  }

  lemma PrintsNothing()
    ensures Render(map[]) == ""
  {
    EmptyTogether(SortedKeys({}), {});
  }

  lemma LineInOne(text: string, k: string, d: ImageDescription)
    ensures text + (k + "=" + DescriptionText(d) + "\n") == text + k + "=" + d.imageId + "," + d.catalog + "\n"
  {
  }

  lemma GreatestComesLast(s: set<string>, k: string)
    requires k !in s && forall x :: x in s ==> AtMost(x, k)
    ensures SortedKeys(s + {k}) == SortedKeys(s) + [k]
  {
    hide SortedKeys, AtMost;
    LastOfSorted(SortedKeys(s), k);
    assert SortedListOf(SortedKeys(s) + [k], s + {k});
    SortedListUnique(SortedKeys(s) + [k], SortedKeys(s + {k}), s + {k});
  }

  lemma {:induction false} RenderSame(ks: seq<string>, a: Images, b: Images)
    requires forall k :: k in ks ==> k in a && k in b && a[k] == b[k]
    ensures RenderKeys(ks, a) == RenderKeys(ks, b)
  {
    if ks != [] {
      assert ks[0] in ks && forall k :: k in ks[1..] ==> k in ks;
      RenderSame(ks[1..], a, b);
    }
  }

  /**
   Printing and parsing back gives the same map exactly for the maps whose names, image IDs and
   catalogs hold no newline, no `=` and no space at an edge, and whose image IDs hold no comma.
   */
  lemma RoundTripIff(images: Images)
    ensures Parse(Render(images)) == images <==> WellFormed(images)
  {
    if WellFormed(images) {
      PrintedFileParsesBack(images);
    }
    ParsedIsWellFormed(Render(images));
  }

  /** For well-formed maps, equal files are equal maps. */
  lemma FileIsCanonical(a: Images, b: Images)
    requires WellFormed(a) && WellFormed(b)
    ensures Render(a) == Render(b) <==> a == b
  {
    PrintedFileParsesBack(a);
    PrintedFileParsesBack(b);
  }
}
