// Reading a tree back line by line: EasyTreeParser for the format with sizes, and the loop of
// LastModifiedTimestampsTools for the simplified one.
module EasyTreeParser {
  import opened Wrappers
  import opened Text
  import opened ColonEscaping
  import opened LastModifiedTimestamp
  import opened EasyTree
  import Items = EasyTreeHashItem

  // QTextStream::readLine up to the end
  function Lines(text: string): (lines: seq<string>)
    ensures text != "" ==> lines != []
  {
    if text == "" then []
    else
      var rest := Lines(text[1..]);
      if text[0] == '\n' then [""] + rest
      else if |text| == 1 then [text]
      else [[text[0]] + rest[0]] + rest[1..]
  }

  class TextStream {
    var rest: string

    constructor (text: string)
      ensures rest == text
    {
      rest := text;
    }

    method ReadLine() returns (line: string)
      requires rest != ""
      modifies this
      ensures Lines(old(rest)) == [line] + Lines(rest) && |rest| < |old(rest)|
    {
      var end := 0;
      while end < |rest| && rest[end] != '\n'
        invariant 0 <= end <= |rest| && '\n' !in rest[..end]
      {
        end := end + 1;
      }
      line := rest[..end];
      if end < |rest| {
        assert rest == line + "\n" + rest[end + 1..];
        LineIs(line, rest[end + 1..]);
        rest := rest[end + 1..];
      } else {
        assert rest == line;
        LastLineIs(line);
        rest := "";
      }
    }
  }

  lemma {:induction false} LineIs(line: string, rest: string)
    requires '\n' !in line
    ensures Lines(line + "\n" + rest) == [line] + Lines(rest)
    decreases |line|
  {
    var text := line + "\n" + rest;
    if line == "" {
      assert text[1..] == rest;
    } else {
      assert text[1..] == line[1..] + "\n" + rest;
      LineIs(line[1..], rest);
      assert [text[0]] + line[1..] == line;
    }
  }

  lemma {:induction false} LastLineIs(line: string)
    requires '\n' !in line && line != ""
    ensures Lines(line) == [line]
    decreases |line|
  {
    if |line| > 1 {
      LastLineIs(line[1..]);
      assert [line[0]] + line[1..] == line;
    }
  }

  // ---------- the two reading loops ----------

  // None: the program would read past the end of some line's fields.
  function ParsedItems(lines: seq<string>, replacements: bool): Option<seq<Items.Item>>
  {
    if lines == [] then Some([])
    else
      match Items.ParseItem(lines[0], replacements, true)
      case None => None
      case Some(i) =>
        match ParsedItems(lines[1..], replacements)
        case None => None
        case Some(rest) => Some([i] + rest)
  }

  function ValuesOf(items: seq<Items.EasyTreeHashItem>): seq<Items.Item>
    reads items
  {
    seq(|items|, k requires 0 <= k < |items| reads items => items[k].Value())
  }

  // parseEasyTreeAndReturnAsNewList on a text whose every line has the fields it needs.
  method ParseEasyTreeAndReturnAsNewList(easyTree: string, replacements: bool) returns (list: seq<Items.EasyTreeHashItem>)
    requires ParsedItems(Lines(easyTree), replacements).Some?
    ensures ParsedItems(Lines(easyTree), replacements) == Some(ValuesOf(list))
  {
    hide Items.ParseItem; hide Lines;
    var textStream := new TextStream(easyTree);
    list := [];
    while textStream.rest != ""
      invariant ParsedItems(Lines(textStream.rest), replacements).Some?
      invariant ParsedItems(Lines(easyTree), replacements).value
                == ValuesOf(list) + ParsedItems(Lines(textStream.rest), replacements).value
      decreases |textStream.rest|
    {
      ghost var values := ValuesOf(list);
      ghost var before := Lines(textStream.rest);
      var oneLine := textStream.ReadLine();
      assert before[0] == oneLine && before[1..] == Lines(textStream.rest);
      var item := Items.NewEasyTreeHashItemFromLineOfText(oneLine, replacements, true);
      assert values + ([item.Value()] + ParsedItems(before[1..], replacements).value)
             == values + [item.Value()] + ParsedItems(before[1..], replacements).value;
      list := list + [item];
      assert ValuesOf(list) == values + [item.Value()];
    }
    NoLines();
    assert ValuesOf(list) + [] == ValuesOf(list);
  }

  lemma NoLines()
    ensures Lines("") == []
  {
  }

  // Empty lines and lines that cannot be parsed are passed over.
  function ParsedStamp(line: string): seq<Stamp>
  {
    match Parsed(line)
    case None => []
    case Some(s) => if line == "" || s.filePath == "" then [] else [s]
  }

  function ParsedStamps(lines: seq<string>): seq<Stamp>
  {
    if lines == [] then [] else ParsedStamp(lines[0]) + ParsedStamps(lines[1..])
  }

  lemma StampsGrow(known: seq<Stamp>, line: string, rest: seq<string>)
    ensures known + ParsedStamps([line] + rest) == known + ParsedStamp(line) + ParsedStamps(rest)
  {
    assert ([line] + rest)[1..] == rest;
    assert known + (ParsedStamp(line) + ParsedStamps(rest)) == known + ParsedStamp(line) + ParsedStamps(rest);
  }

  method ReadTimestamps(text: string) returns (stamps: seq<Stamp>)
    ensures stamps == ParsedStamps(Lines(text))
  {
    hide Lines; hide Parsed; hide ParsedStamps;
    var stream := new TextStream(text);
    stamps := [];
    while stream.rest != ""
      invariant ParsedStamps(Lines(text)) == stamps + ParsedStamps(Lines(stream.rest))
      decreases |stream.rest|
    {
      ghost var known := stamps;
      var currentLine := stream.ReadLine();
      StampsGrow(known, currentLine, Lines(stream.rest));
      if currentLine != "" {
        var entry := new SimplifiedLastModifiedTimestamp.FromLine(currentLine);
        if entry.filePath != "" {
          stamps := stamps + [entry.Value()];
        }
      }
      assert known + [] == known;
      assert stamps == known + ParsedStamp(currentLine);
    }
    NoLines();
    NoStamps();
    assert stamps + [] == stamps;
  }

  lemma NoStamps()
    ensures ParsedStamps([]) == []
  {
  }

  // Every line counts by itself: no line, good or bad, changes what is read off the others.
  lemma {:induction false} StampsAppend(a: seq<string>, b: seq<string>)
    ensures ParsedStamps(a + b) == ParsedStamps(a) + ParsedStamps(b)
    decreases |a|
  {
    hide ParsedStamp;
    if a == [] {
      assert a + b == b;
    } else {
      assert (a + b)[1..] == a[1..] + b;
      StampsAppend(a[1..], b);
    }
  }

  // A printed timestamp among any lines is read at its place.
  lemma StampInItsPlace(a: seq<string>, s: Stamp, b: seq<string>)
    requires NoDoubledSlash(s.filePath) && IsQint64(s.msecs) && s.filePath != "" && !EndsInBackslash(s.filePath)
    ensures ParsedStamps(a + [Printed(s)] + b)
            == ParsedStamps(a) + [Stamp(s.filePath, EndsWith(s.filePath, "/"), Seconds(s.msecs) * 1000)] + ParsedStamps(b)
  {
    StampComesBack(s);
    hide Parsed;
    assert Printed(s) != "" by { assert (COLON + IntToString(Seconds(s.msecs))) != ""; }
    OneStamp(Printed(s));
    StampsAppend(a + [Printed(s)], b);
    StampsAppend(a, [Printed(s)]);
  }

  // A line without a colon is passed over wherever it stands, and so is a printed one whose path is
  // empty or ends in a backslash.
  lemma BadLineIsPassedOver(a: seq<string>, line: string, b: seq<string>)
    requires ':' !in line || exists s: Stamp :: line == Printed(s) && (s.filePath == "" || EndsInBackslash(s.filePath))
    ensures ParsedStamps(a + [line] + b) == ParsedStamps(a + b)
  {
    if ':' !in line {
      ColonlessIsBad(line);
    } else {
      var s: Stamp :| line == Printed(s) && (s.filePath == "" || EndsInBackslash(s.filePath));
      if s.filePath == "" { EmptyPathLost(Seconds(s.msecs)); } else { BackslashLost(s); }
    }
    hide Parsed;
    OneStamp(line);
    StampsAppend(a + [line], b);
    StampsAppend(a, [line]);
    StampsAppend(a, b);
    assert ParsedStamps(a) + [] == ParsedStamps(a);
  }

  lemma OneStamp(line: string)
    ensures ParsedStamps([line]) == ParsedStamp(line)
  {
    assert [line][1..] == [];
    assert ParsedStamps([]) == [];
    assert ParsedStamp(line) + [] == ParsedStamp(line);
  }

  lemma ColonlessIsBad(line: string)
    requires ':' !in line
    ensures Parsed(line) == None
  {
    ContainedChar(line, ESCAPED_COLON, 1);
    ReplaceNone(line, ESCAPED_COLON, IllegalFilePath());
    ContainedChar(line, COLON, 0);
    SplitNone(line, COLON);
    if line != "" { OnlyOne(line); } else { OnlyOne("x"); }
  }

  // ---------- what was written comes back ----------

  // A name without line breaks, and for a file one that does not end in a backslash.
  predicate Readable(e: Entry) { '\n' !in e.name && (e.FileEntry? ==> !EndsInBackslash(e.name)) && IsQint64(e.modified) }

  // What is ignored may have any name.
  predicate AllReadable(f: Filters, es: seq<Entry>)
  {
    es == [] || (AllReadable(f, es[1..])
                 && (Ignored(f, es[0]) || (Readable(es[0]) && (es[0].DirEntry? ==> AllReadable(f, es[0].children)))))
  }

  // What is known of the place of a visited entry.
  ghost predicate GoodVisit(v: Visit)
  {
    && IsName(v.entry.name) && Readable(v.entry) && '\n' !in v.parent
    && NoDoubledSlash(v.parent) && (v.parent == "" || (EndsWith(v.parent, "/") && v.parent[0] != '/'))
  }

  lemma {:induction false} VisitsAreGood(f: Filters, parent: string, es: seq<Entry>)
    requires WellNamed(es) && AllReadable(f, es) && '\n' !in parent
    requires NoDoubledSlash(parent) && (parent == "" || (EndsWith(parent, "/") && parent[0] != '/'))
    ensures forall v | v in Walk(f, parent, es) :: GoodVisit(v)
    decreases Weight(es)
  {
    if es != [] {
      VisitsAreGood(f, parent, es[1..]);
      if es[0].DirEntry? && !Ignored(f, es[0]) {
        PathHasNoDoubledSlash(parent, es[0].name);
        VisitsAreGood(f, parent + es[0].name + "/", es[0].children);
      }
    }
  }

  lemma PathHasNoDoubledSlash(parent: string, name: string)
    requires IsName(name) && NoDoubledSlash(parent) && (parent == "" || (EndsWith(parent, "/") && parent[0] != '/'))
    ensures NoDoubledSlash(parent + name) && NoDoubledSlash(parent + name + "/") && (parent + name)[0] != '/'
    ensures !EndsWith(parent + name, "/") && (parent + name)[|parent + name| - 1] == name[|name| - 1]
  {
    var path := parent + name + "/";
    forall k | 0 <= k <= |path| ensures !OccursAt(path, "//", k) {
      SlashPairOccurs(path, k);
      if k + 1 < |parent| {
        SlashPairOccurs(parent, k);
        assert !OccursAt(parent, "//", k);
        assert path[k] == parent[k] && path[k + 1] == parent[k + 1];
      } else if k + 1 < |parent| + |name| {
        assert path[k + 1] == name[k + 1 - |parent|];
      } else if k + 1 == |parent| + |name| {
        assert path[k] == name[|name| - 1];
      }
    }
    PartContains("", parent + name, "/", "//");
    assert "" + (parent + name) + "/" == path;
    assert name[0] in name && name[|name| - 1] in name;
    assert (parent + name)[|parent + name| - 1..] == [name[|name| - 1]];
  }

  // The stamp and the item that a line stands for.
  function StampOf(v: Visit): Stamp
  {
    Stamp(PathOf(v) + (if v.entry.DirEntry? then "/" else ""), v.entry.DirEntry?, Seconds(v.entry.modified) * 1000)
  }

  function ItemOf(v: Visit): Items.Item
  {
    Items.Item(PathOf(v), v.entry.DirEntry?, if v.entry.DirEntry? then -1 else v.entry.size, Some(v.entry.created),
               v.entry.modified, None, "")
  }

  lemma SimplifiedLineComesBack(v: Visit)
    requires GoodVisit(v)
    ensures Parsed(LineOf(SimplifiedLastModifiedTimestamps, v)) == Some(StampOf(v))
    ensures '\n' !in LineOf(SimplifiedLastModifiedTimestamps, v) && LineOf(SimplifiedLastModifiedTimestamps, v) != ""
  {
    hide IntToString; hide Parsed;
    PathHasNoDoubledSlash(v.parent, v.entry.name);
    var dir := v.entry.DirEntry?;
    var path := PathOf(v) + if dir then "/" else "";
    var number := IntToString(Seconds(v.entry.modified));
    if dir { Items.SlashIsKept(PathOf(v)); } else { assert PathOf(v) + "" == PathOf(v) && Escaped(PathOf(v)) + "" == Escaped(PathOf(v)); }
    assert LineOf(SimplifiedLastModifiedTimestamps, v) == Printed(Stamp(path, dir, v.entry.modified));
    StampComesBack(Stamp(path, dir, v.entry.modified));
    NoNewline(path);
    NumberHasNoNewline(Seconds(v.entry.modified));
  }

  lemma {:induction false} NoNewline(path: string)
    requires '\n' !in path
    ensures '\n' !in Escaped(path)
    decreases |path|
  {
    if path != "" {
      ReplaceStep(path, ESCAPED_COLON);
      NoNewline(path[1..]);
    }
  }

  lemma NumberHasNoNewline(n: int)
    ensures '\n' !in IntToString(n)
  {
    assert forall c | c in IntToString(n) :: IsDigit(c) || c == '-';
  }

  lemma ItemLineComesBack(v: Visit)
    requires GoodVisit(v)
    ensures Items.ParseItem(LineOf(ObsoleteWithSizeAndCreationDate, v), false, true) == Some(Items.Reparsed(ItemOf(v)))
    ensures '\n' !in LineOf(ObsoleteWithSizeAndCreationDate, v)
  {
    hide IntToString; hide Items.ParseItem;
    PathHasNoDoubledSlash(v.parent, v.entry.name);
    var line := LineOf(ObsoleteWithSizeAndCreationDate, v);
    assert line + "" == line;
    assert line == Items.PrintItem(ItemOf(v));
    if v.entry.DirEntry? { Items.DirectoryComesBack(ItemOf(v)); } else { Items.FileComesBack(ItemOf(v)); }
    NoNewline(PathOf(v));
    NumberHasNoNewline(v.entry.modified);
    NumberHasNoNewline(Seconds(v.entry.modified));
    NumberHasNoNewline(Seconds(v.entry.created));
    if v.entry.FileEntry? { NumberHasNoNewline(v.entry.size); }
  }

  function StampsOf(vs: seq<Visit>): seq<Stamp> { seq(|vs|, k requires 0 <= k < |vs| => StampOf(vs[k])) }

  function ReparsedItemsOf(vs: seq<Visit>): seq<Items.Item>
  {
    seq(|vs|, k requires 0 <= k < |vs| => Items.Reparsed(ItemOf(vs[k])))
  }

  lemma {:induction false} SimplifiedTextComesBack(vs: seq<Visit>)
    requires forall v | v in vs :: GoodVisit(v)
    ensures ParsedStamps(Lines(TextOf(SimplifiedLastModifiedTimestamps, vs))) == StampsOf(vs)
    decreases |vs|
  {
    hide Parsed; hide LineOf; hide GoodVisit; hide Lines;
    NoLines();
    if vs != [] {
      var v, line := vs[0], LineOf(SimplifiedLastModifiedTimestamps, vs[0]);
      assert v in vs && forall w | w in vs[1..] :: w in vs;
      SimplifiedLineComesBack(v);
      NamedStamp(v);
      LineIs(line, TextOf(SimplifiedLastModifiedTimestamps, vs[1..]));
      SimplifiedTextComesBack(vs[1..]);
      var lines := [line] + Lines(TextOf(SimplifiedLastModifiedTimestamps, vs[1..]));
      assert lines[1..] == Lines(TextOf(SimplifiedLastModifiedTimestamps, vs[1..]));
      assert StampsOf(vs) == [StampOf(v)] + StampsOf(vs[1..]);
    }
  }

  lemma NamedStamp(v: Visit)
    requires GoodVisit(v)
    ensures StampOf(v).filePath != ""
  {
  }

  lemma {:induction false} ItemTextComesBack(vs: seq<Visit>)
    requires forall v | v in vs :: GoodVisit(v)
    ensures ParsedItems(Lines(TextOf(ObsoleteWithSizeAndCreationDate, vs)), false) == Some(ReparsedItemsOf(vs))
    decreases |vs|
  {
    hide Items.ParseItem; hide LineOf; hide GoodVisit; hide Lines;
    NoLines();
    if vs != [] {
      var v, line := vs[0], LineOf(ObsoleteWithSizeAndCreationDate, vs[0]);
      assert v in vs && forall w | w in vs[1..] :: w in vs;
      ItemLineComesBack(v);
      LineIs(line, TextOf(ObsoleteWithSizeAndCreationDate, vs[1..]));
      ItemTextComesBack(vs[1..]);
      var lines := [line] + Lines(TextOf(ObsoleteWithSizeAndCreationDate, vs[1..]));
      assert lines[1..] == Lines(TextOf(ObsoleteWithSizeAndCreationDate, vs[1..]));
      assert ReparsedItemsOf(vs) == [Items.Reparsed(ItemOf(v))] + ReparsedItemsOf(vs[1..]);
    }
  }

  // Writing a tree in the simplified format and reading it back gives, in preorder, path,
  // directory flag and time in whole seconds of exactly the entries that are not ignored and
  // have no ignored directory above them.
  method SimplifiedTreeComesBack(root: string, entries: seq<Entry>, filters: Filters) returns (stamps: seq<Stamp>)
    requires WellNamed(entries) && AllReadable(filters, entries)
    ensures stamps == StampsOf(Unmarked(Everything(filters, "", entries, false)))
    ensures ParentsFirst(Unmarked(Everything(filters, "", entries, false)), "")
  {
    var tree := new EasyTree();
    tree.GenerateTreeText(root, entries, SimplifiedLastModifiedTimestamps, filters);
    stamps := ReadTimestamps(tree.treeText);
    VisitsAreGood(filters, "", entries);
    SimplifiedTextComesBack(Walk(filters, "", entries));
    WalkIsUnmarked(filters, "", entries, false);
    WalkHasParentsFirst(filters, "", entries);
  }

  // The same for the format with sizes and creation dates.
  method ItemTreeComesBack(root: string, entries: seq<Entry>, filters: Filters) returns (items: seq<Items.EasyTreeHashItem>)
    requires WellNamed(entries) && AllReadable(filters, entries)
    ensures ValuesOf(items) == ReparsedItemsOf(Unmarked(Everything(filters, "", entries, false)))
    ensures ParentsFirst(Unmarked(Everything(filters, "", entries, false)), "")
  {
    var tree := new EasyTree();
    tree.GenerateTreeText(root, entries, ObsoleteWithSizeAndCreationDate, filters);
    VisitsAreGood(filters, "", entries);
    ItemTextComesBack(Walk(filters, "", entries));
    WalkIsUnmarked(filters, "", entries, false);
    WalkHasParentsFirst(filters, "", entries);
    items := ParseEasyTreeAndReturnAsNewList(tree.treeText, false);
  }
}
