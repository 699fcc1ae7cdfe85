// EasyTree: the recursive walk over a directory that writes one line for every entry that is not
// ignored, in both formats.
module EasyTree {
  import opened Wrappers
  import opened Text
  import opened ColonEscaping
  import opened LastModifiedTimestamp

  // What QDir lists, in its order; times in milliseconds since the epoch.
  datatype Entry =
    | FileEntry(name: string, size: int, created: int, modified: int)
    | DirEntry(name: string, created: int, modified: int, children: seq<Entry>)

  datatype Format = SimplifiedLastModifiedTimestamps | ObsoleteWithSizeAndCreationDate

  datatype Filters = Filters(dirNames: seq<string>, dirEnds: seq<string>, fileNames: seq<string>, fileEnds: seq<string>)

  // A file system guarantees this of every name.
  predicate IsName(name: string) { name != "" && '/' !in name }

  predicate WellNamed(es: seq<Entry>)
  {
    es == [] || (IsName(es[0].name) && (es[0].DirEntry? ==> WellNamed(es[0].children)) && WellNamed(es[1..]))
  }

  function Weight(es: seq<Entry>): nat
  {
    if es == [] then 0
    else 1 + (if es[0].DirEntry? then Weight(es[0].children) else 0) + Weight(es[1..])
  }

  // ---------- which entries are written ----------

  const GENERATED_PREFIX := "autogeneratedrpccodefor"

  predicate StartsWith(s: string, start: string) { |start| <= |s| && s[..|start|] == start }

  predicate EndsWithOneOf(s: string, ends: seq<string>)
  {
    exists k | 0 <= k < |ends| :: EndsWith(s, ends[k])
  }

  predicate Ignored(f: Filters, e: Entry)
  {
    match e
    case FileEntry(name, _, _, _) => name in f.fileNames || EndsWithOneOf(name, f.fileEnds)
    case DirEntry(name, _, _, _) => name in f.dirNames || StartsWith(name, GENERATED_PREFIX) || EndsWithOneOf(name, f.dirEnds)
  }

  ghost predicate HasListedEnd(name: string, ends: seq<string>)
  {
    exists front: string, end: string :: end in ends && name == front + end
  }

  ghost predicate IsGenerated(name: string)
  {
    exists rest: string :: name == "autogeneratedrpccodefor" + rest
  }

  // A file or a directory is ignored if and only if its whole name is listed for its kind, or the
  // name is something followed by a listed end; a directory also if its name goes on behind that
  // of generated code.
  lemma IgnoredIff(f: Filters, e: Entry)
    ensures e.FileEntry? ==> (Ignored(f, e) <==> e.name in f.fileNames || HasListedEnd(e.name, f.fileEnds))
    ensures e.DirEntry? ==>
              (Ignored(f, e) <==> e.name in f.dirNames || HasListedEnd(e.name, f.dirEnds) || IsGenerated(e.name))
  {
    EndsIff(e.name, f.fileEnds);
    EndsIff(e.name, f.dirEnds);
    if StartsWith(e.name, GENERATED_PREFIX) {
      assert e.name == "autogeneratedrpccodefor" + e.name[|GENERATED_PREFIX|..];
    }
  }

  lemma EndsIff(name: string, ends: seq<string>)
    ensures EndsWithOneOf(name, ends) <==> HasListedEnd(name, ends)
  {
    if EndsWithOneOf(name, ends) {
      var k :| 0 <= k < |ends| && EndsWith(name, ends[k]);
      assert name == name[..|name| - |ends[k]|] + ends[k] && ends[k] in ends;
    }
    if HasListedEnd(name, ends) {
      var front: string, end: string :| end in ends && name == front + end;
      var k :| 0 <= k < |ends| && ends[k] == end;
      assert EndsWith(name, ends[k]);
    }
  }

  // An entry and the path of its directory relative to the tree, with a slash at the end.
  datatype Visit = Visit(parent: string, entry: Entry)

  function PathOf(v: Visit): string { v.parent + v.entry.name }

  function Walk(f: Filters, parent: string, es: seq<Entry>): seq<Visit>
    decreases Weight(es)
  {
    if es == [] then []
    else if Ignored(f, es[0]) then Walk(f, parent, es[1..])
    else
      [Visit(parent, es[0])]
      + (if es[0].DirEntry? then Walk(f, parent + es[0].name + "/", es[0].children) else [])
      + Walk(f, parent, es[1..])
  }

  // ---------- lines ----------

  function LineOf(format: Format, v: Visit): string
  {
    var e := v.entry;
    match format
    case SimplifiedLastModifiedTimestamps =>
      Escaped(PathOf(v)) + (if e.DirEntry? then "/" else "") + (COLON + IntToString(Seconds(e.modified)))
    case ObsoleteWithSizeAndCreationDate =>
      Escaped(PathOf(v)) + (if e.DirEntry? then "/" else COLON + IntToString(e.size))
      + COLON + IntToString(Seconds(e.created)) + COLON + IntToString(Seconds(e.modified))
  }

  function TextOf(format: Format, vs: seq<Visit>): string
  {
    if vs == [] then "" else LineOf(format, vs[0]) + "\n" + TextOf(format, vs[1..])
  }

  lemma {:induction false} TextAppend(format: Format, a: seq<Visit>, b: seq<Visit>)
    ensures TextOf(format, a + b) == TextOf(format, a) + TextOf(format, b)
    decreases |a|
  {
    if a == [] {
      assert a + b == b;
    } else {
      assert (a + b)[1..] == a[1..] + b;
      TextAppend(format, a[1..], b);
    }
  }

  // ---------- names and paths ----------

  // canonicalFilePath().split("/", SkipEmptyParts).last()
  function LastComponent(path: string): string
  {
    var parts := SkipEmpty(Split(path, "/"));
    if parts == [] then "" else parts[|parts| - 1]
  }

  lemma {:induction false} SplitAtLastSlash(front: string, name: string)
    requires '/' !in name
    ensures Split(front + "/" + name, "/") == Split(front, "/") + [name]
    decreases |front|
  {
    var s := front + "/" + name;
    if front == "" {
      assert s[..1] == "/" && s[1..] == name;
      ContainedChar(name, "/", 0);
      SplitNone(name, "/");
      assert Split(front, "/") == [""];
    } else {
      assert s[1..] == front[1..] + "/" + name;
      SplitAtLastSlash(front[1..], name);
      var rest := Split(front[1..], "/");
      assert s[..1] == [front[0]] == front[..1];
      if front[0] == '/' {
        assert [""] + (rest + [name]) == [""] + rest + [name];
      } else {
        assert (rest + [name])[0] == rest[0] && (rest + [name])[1..] == rest[1..] + [name];
        assert [[front[0]] + rest[0]] + (rest[1..] + [name]) == [[front[0]] + rest[0]] + rest[1..] + [name];
      }
    }
  }

  lemma {:induction false} LastIsKept(parts: seq<string>, name: string)
    requires name != ""
    ensures SkipEmpty(parts + [name]) == SkipEmpty(parts) + [name]
  {
    if parts == [] {
      assert parts + [name] == [name];
      assert [name][1..] == [];
    } else {
      assert (parts + [name])[1..] == parts[1..] + [name];
      LastIsKept(parts[1..], name);
    }
  }

  lemma LastComponentIs(dir: string, name: string)
    requires IsName(name) && EndsWith(dir, "/")
    ensures LastComponent(dir + name) == name
  {
    var front := dir[..|dir| - 1];
    assert dir == front + "/";
    SplitAtLastSlash(front, name);
    LastIsKept(Split(front, "/"), name);
  }

  // ---------- the object ----------

  datatype FileInfo = FileInfo(canonicalFilePath: string, entry: Entry)

  function ChildPath(dir: string, name: string): string { if EndsWith(dir, "/") then dir + name else dir + "/" + name }

  class EasyTree {
    var format: Format
    var filters: Filters
    var dirWeAreTreeing: string
    var dirWeAreTreeingChopLength: nat
    var currentFileInfo: FileInfo
    var treeText: string

    constructor ()
    {
      format, filters := SimplifiedLastModifiedTimestamps, Filters([], [], [], []);
      dirWeAreTreeing, dirWeAreTreeingChopLength, treeText := "", 0, "";
      currentFileInfo := FileInfo("", FileEntry("", 0, 0, 0));
    }

    predicate Chops()
      reads this
    {
      dirWeAreTreeingChopLength == |dirWeAreTreeing| && EndsWith(dirWeAreTreeing, "/")
    }

    // The current entry is found at this relative place.
    predicate CurrentIs(v: Visit)
      reads this
    {
      && Chops() && currentFileInfo.entry == v.entry && IsName(v.entry.name) && (v.parent == "" || EndsWith(v.parent, "/"))
      && currentFileInfo.canonicalFilePath == dirWeAreTreeing + (v.parent + v.entry.name)
    }

    method EndsWithAny(name: string, ends: seq<string>) returns (found: bool)
      ensures found <==> EndsWithOneOf(name, ends)
    {
      var i := 0;
      while i < |ends|
        invariant 0 <= i <= |ends|
        invariant forall k | 0 <= k < i :: !EndsWith(name, ends[k])
      {
        if EndsWith(name, ends[i]) {
          return true;
        }
        i := i + 1;
      }
      return false;
    }

    method NamedOneOf(name: string, names: seq<string>) returns (found: bool)
      ensures found <==> name in names
    {
      var i := 0;
      while i < |names|
        invariant 0 <= i <= |names|
        invariant name !in names[..i]
      {
        if name == names[i] {
          return true;
        }
        i := i + 1;
      }
      return false;
    }

    method WeDontWantToSkipCurrentFileInfo(ghost v: Visit) returns (keep: bool)
      requires CurrentIs(v) && v.entry.FileEntry?
      ensures keep <==> !Ignored(filters, v.entry)
    {
      var currentFilenameOnly := LastComponent(currentFileInfo.canonicalFilePath);
      NameOfCurrent(dirWeAreTreeing, v);
      var named := NamedOneOf(currentFilenameOnly, filters.fileNames);
      if named {
        return false;
      }
      var ends := EndsWithAny(currentFilenameOnly, filters.fileEnds);
      return !ends;
    }

    method WeDontWantToSkipCurrentDirInfo(ghost v: Visit) returns (keep: bool)
      requires CurrentIs(v) && v.entry.DirEntry?
      ensures keep <==> !Ignored(filters, v.entry)
    {
      var currentFilenameOnly := LastComponent(currentFileInfo.canonicalFilePath);
      NameOfCurrent(dirWeAreTreeing, v);
      var named := NamedOneOf(currentFilenameOnly, filters.dirNames);
      if named {
        return false;
      }
      if StartsWith(currentFilenameOnly, GENERATED_PREFIX) {
        return false;
      }
      var ends := EndsWithAny(currentFilenameOnly, filters.dirEnds);
      return !ends;
    }

    method AddDirEntry(ghost v: Visit)
      requires CurrentIs(v) && v.entry.DirEntry?
      modifies this`treeText
      ensures treeText == old(treeText) + (LineOf(format, v) + "\n")
    {
      var e := currentFileInfo.entry;
      assert currentFileInfo.canonicalFilePath[dirWeAreTreeingChopLength..] == PathOf(v);
      var line := Replace(currentFileInfo.canonicalFilePath[dirWeAreTreeingChopLength..], COLON, ESCAPED_COLON) + "/";
      if format == ObsoleteWithSizeAndCreationDate {
        line := line + COLON + IntToString(Seconds(e.created)) + COLON + IntToString(Seconds(e.modified));
      } else {
        line := line + (COLON + IntToString(Seconds(e.modified)));
      }
      treeText := treeText + (line + "\n");
    }

    method AddFileEntry(ghost v: Visit)
      requires CurrentIs(v) && v.entry.FileEntry?
      modifies this`treeText
      ensures treeText == old(treeText) + (LineOf(format, v) + "\n")
    {
      var e := currentFileInfo.entry;
      assert currentFileInfo.canonicalFilePath[dirWeAreTreeingChopLength..] == PathOf(v);
      var line := Replace(currentFileInfo.canonicalFilePath[dirWeAreTreeingChopLength..], COLON, ESCAPED_COLON);
      if format == ObsoleteWithSizeAndCreationDate {
        line := line + (COLON + IntToString(e.size)) + COLON + IntToString(Seconds(e.created))
                + COLON + IntToString(Seconds(e.modified));
      } else {
        assert line + "" == line;
        line := line + (COLON + IntToString(Seconds(e.modified)));
      }
      treeText := treeText + (line + "\n");
    }

    // entries: what QDir lists for absoluteDirString.
    method InsertAllFileAndDirInfoIntoTreeTextRecursingIntoDirs(absoluteDirString: string, entries: seq<Entry>, ghost parent: string)
      requires Chops() && WellNamed(entries) && (parent == "" || EndsWith(parent, "/"))
      requires forall name | IsName(name) :: ChildPath(absoluteDirString, name) == dirWeAreTreeing + (parent + name)
      modifies this`currentFileInfo, this`treeText
      ensures treeText == old(treeText) + TextOf(format, Walk(filters, parent, entries))
      decreases Weight(entries)
    {
      hide LineOf; hide Ignored; hide StartsWith;
      var i := 0;
      assert entries[0..] == entries;
      while i < |entries|
        invariant 0 <= i <= |entries| && WellNamed(entries[i..]) && Weight(entries[i..]) <= Weight(entries)
        invariant treeText + TextOf(format, Walk(filters, parent, entries[i..]))
                  == old(treeText) + TextOf(format, Walk(filters, parent, entries))
      {
        ghost var v, before, rest := Visit(parent, entries[i]), treeText, Walk(filters, parent, entries[i + 1..]);
        assert entries[i..][1..] == entries[i + 1..];
        currentFileInfo := FileInfo(ChildPath(absoluteDirString, entries[i].name), entries[i]);
        if entries[i].DirEntry? {
          var keep := WeDontWantToSkipCurrentDirInfo(v);
          if keep {
            ghost var inner := Walk(filters, parent + entries[i].name + "/", entries[i].children);
            AddDirEntry(v);
            InnerPaths(dirWeAreTreeing, v, currentFileInfo.canonicalFilePath);
            InsertAllFileAndDirInfoIntoTreeTextRecursingIntoDirs(currentFileInfo.canonicalFilePath, entries[i].children,
                                                                 parent + entries[i].name + "/");
            TextGrows(format, before, v, inner, rest);
          }
        } else {
          var keep := WeDontWantToSkipCurrentFileInfo(v);
          if keep {
            AddFileEntry(v);
            TextGrows(format, before, v, [], rest);
          }
        }
        i := i + 1;
      }
    }

    method GenerateTreeText(absoluteDirString: string, entries: seq<Entry>, format: Format, filters: Filters)
      requires WellNamed(entries)
      modifies this
      ensures treeText == TextOf(format, Walk(filters, "", entries))
    {
      this.format, this.filters := format, filters;
      dirWeAreTreeing := absoluteDirString;
      if !EndsWith(dirWeAreTreeing, "/") {
        dirWeAreTreeing := dirWeAreTreeing + "/";
      }
      dirWeAreTreeingChopLength := |dirWeAreTreeing|;
      treeText := "";
      AtTheTop();
      hide TextOf; hide Walk;
      InsertAllFileAndDirInfoIntoTreeTextRecursingIntoDirs(dirWeAreTreeing, entries, "");
    }
  }

  lemma AtTheTop()
    ensures forall name: string :: "" + name == name
  {
  }

  lemma NameOfCurrent(root: string, v: Visit)
    requires EndsWith(root, "/") && IsName(v.entry.name) && (v.parent == "" || EndsWith(v.parent, "/"))
    ensures LastComponent(root + (v.parent + v.entry.name)) == v.entry.name
  {
    assert EndsWith(root + v.parent, "/");
    LastComponentIs(root + v.parent, v.entry.name);
    assert root + v.parent + v.entry.name == root + (v.parent + v.entry.name);
  }

  // The path of a directory has no slash at the end, so its children get one.
  lemma InnerPaths(root: string, v: Visit, path: string)
    requires IsName(v.entry.name) && path == root + (v.parent + v.entry.name)
    ensures forall name | IsName(name) :: ChildPath(path, name) == root + (v.parent + v.entry.name + "/" + name)
    ensures EndsWith(v.parent + v.entry.name + "/", "/")
  {
    assert path[|path| - 1] == v.entry.name[|v.entry.name| - 1];
    assert path[|path| - 1] in v.entry.name;
    assert !EndsWith(path, "/");
  }

  lemma TextGrows(format: Format, before: string, v: Visit, inner: seq<Visit>, rest: seq<Visit>)
    ensures before + (LineOf(format, v) + "\n") + TextOf(format, inner) + TextOf(format, rest)
            == before + TextOf(format, [v] + inner + rest)
    ensures inner == [] ==> before + (LineOf(format, v) + "\n") + TextOf(format, rest)
                            == before + TextOf(format, [v] + inner + rest)
  {
    hide LineOf;
    TextAppend(format, [v] + inner, rest);
    TextAppend(format, [v], inner);
    OneLine(format, v);
    Associate(before, LineOf(format, v) + "\n", TextOf(format, inner), TextOf(format, rest));
    if inner == [] { assert [v] + inner == [v]; }
  }

  lemma OneLine(format: Format, v: Visit)
    ensures TextOf(format, [v]) == LineOf(format, v) + "\n"
  {
    hide LineOf;
    assert [v][1..] == [];
    assert TextOf(format, []) == "";
  }

  lemma Associate(a: string, b: string, c: string, d: string)
    ensures a + b + c + d == a + (b + c + d) && a + b + d == a + (b + d)
  {
  }

  // ---------- what the walk visits ----------

  // Every entry below es in preorder, marked if it or a directory above it is ignored.
  datatype Seen = Seen(visit: Visit, ignored: bool)

  function Everything(f: Filters, parent: string, es: seq<Entry>, above: bool): seq<Seen>
    decreases Weight(es)
  {
    if es == [] then []
    else
      var ignored := above || Ignored(f, es[0]);
      [Seen(Visit(parent, es[0]), ignored)]
      + (if es[0].DirEntry? then Everything(f, parent + es[0].name + "/", es[0].children, ignored) else [])
      + Everything(f, parent, es[1..], above)
  }

  function Unmarked(all: seq<Seen>): seq<Visit>
  {
    if all == [] then []
    else
      var rest := Unmarked(all[1..]);
      if all[0].ignored then rest else [all[0].visit] + rest
  }

  lemma {:induction false} UnmarkedAppend(a: seq<Seen>, b: seq<Seen>)
    ensures Unmarked(a + b) == Unmarked(a) + Unmarked(b)
    decreases |a|
  {
    if a == [] {
      assert a + b == b;
    } else {
      assert (a + b)[1..] == a[1..] + b;
      UnmarkedAppend(a[1..], b);
    }
  }

  // Exactly the entries that are not ignored and have no ignored directory above them.
  lemma {:induction false} WalkIsUnmarked(f: Filters, parent: string, es: seq<Entry>, above: bool)
    ensures Unmarked(Everything(f, parent, es, above)) == if above then [] else Walk(f, parent, es)
    decreases Weight(es)
  {
    if es != [] {
      var e, ignored := es[0], above || Ignored(f, es[0]);
      var here := [Seen(Visit(parent, e), ignored)];
      var inner := if e.DirEntry? then Everything(f, parent + e.name + "/", e.children, ignored) else [];
      UnmarkedAppend(here + inner, Everything(f, parent, es[1..], above));
      UnmarkedAppend(here, inner);
      assert here[1..] == [];
      if e.DirEntry? { WalkIsUnmarked(f, parent + e.name + "/", e.children, ignored); }
      WalkIsUnmarked(f, parent, es[1..], above);
    }
  }

  // Whoever is not listed directly comes after the directory it is in.
  ghost predicate ParentsFirst(vs: seq<Visit>, parent: string)
  {
    forall j | 0 <= j < |vs| && vs[j].parent != parent :: ParentBefore(vs, j)
  }

  ghost predicate ParentBefore(vs: seq<Visit>, j: nat)
    requires j < |vs|
  {
    exists i :: 0 <= i < j && vs[i].entry.DirEntry? && PathOf(vs[i]) + "/" == vs[j].parent
  }

  lemma {:induction false} WalkHasParentsFirst(f: Filters, parent: string, es: seq<Entry>)
    ensures ParentsFirst(Walk(f, parent, es), parent)
    decreases Weight(es)
  {
    if es != [] {
      WalkHasParentsFirst(f, parent, es[1..]);
      if !Ignored(f, es[0]) {
        var v, rest := Visit(parent, es[0]), Walk(f, parent, es[1..]);
        var inner := if es[0].DirEntry? then Walk(f, parent + es[0].name + "/", es[0].children) else [];
        if es[0].DirEntry? { WalkHasParentsFirst(f, parent + es[0].name + "/", es[0].children); }
        JoinedParentsFirst(v, inner, rest, parent);
      }
    }
  }

  lemma ParentBeforeStill(front: seq<Visit>, vs: seq<Visit>, back: seq<Visit>, j: nat)
    requires j < |vs| && ParentBefore(vs, j)
    ensures ParentBefore(front + vs + back, |front| + j)
  {
    var all := front + vs + back;
    var i :| 0 <= i < j && vs[i].entry.DirEntry? && PathOf(vs[i]) + "/" == vs[j].parent;
    assert all[|front| + i] == vs[i] && all[|front| + j] == vs[j];
  }

  lemma JoinedParentsFirst(v: Visit, inner: seq<Visit>, rest: seq<Visit>, parent: string)
    requires v.parent == parent && ParentsFirst(rest, parent) && ParentsFirst(inner, PathOf(v) + "/")
    requires v.entry.FileEntry? ==> inner == []
    ensures ParentsFirst([v] + inner + rest, parent)
  {
    var vs := [v] + inner + rest;
    hide ParentBefore;
    forall j | 0 <= j < |vs| && vs[j].parent != parent ensures ParentBefore(vs, j) {
      if j <= |inner| {
        InnerParentBefore(v, inner, rest, j - 1);
      } else {
        RestParentBefore([v] + inner, rest, j - 1 - |inner|, parent);
      }
    }
  }

  lemma RestParentBefore(front: seq<Visit>, rest: seq<Visit>, j: nat, parent: string)
    requires j < |rest| && ParentsFirst(rest, parent) && rest[j].parent != parent
    ensures ParentBefore(front + rest, |front| + j)
  {
    assert front + rest + [] == front + rest;
    assert ParentBefore(rest, j);
    hide ParentBefore;
    ParentBeforeStill(front, rest, [], j);
  }

  lemma InnerParentBefore(v: Visit, inner: seq<Visit>, rest: seq<Visit>, j: nat)
    requires j < |inner| && v.entry.DirEntry? && ParentsFirst(inner, PathOf(v) + "/")
    ensures ParentBefore([v] + inner + rest, 1 + j)
  {
    InnerPlaces(v, inner, rest, j);
    if inner[j].parent != PathOf(v) + "/" {
      assert ParentBefore(inner, j);
      hide *;
      ParentBeforeStill([v], inner, rest, j);
    } else {
      hide *;
      IsParent([v] + inner + rest, 0, 1 + j);
    }
  }

  lemma InnerPlaces(v: Visit, inner: seq<Visit>, rest: seq<Visit>, j: nat)
    requires j < |inner|
    ensures var vs := [v] + inner + rest; 1 + j < |vs| && vs[1 + j] == inner[j] && vs[0] == v
  {
  }

  lemma IsParent(vs: seq<Visit>, i: nat, j: nat)
    requires i < j < |vs| && vs[i].entry.DirEntry? && PathOf(vs[i]) + "/" == vs[j].parent
    ensures ParentBefore(vs, j)
  {
  }
}
