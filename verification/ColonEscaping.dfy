// Lines whose fields are separated by colons: colons of a path are escaped with a backslash and
// parsed back by putting a placeholder in for them before the line is split.
module ColonEscaping {
  import opened Text

  const COLON := ":"
  const ESCAPED_COLON := "\\:"

  function Escaped(path: string): string { Replace(path, COLON, ESCAPED_COLON) }

  // Where the placeholder has its first two slashes in a row; no path has any.
  ghost predicate Placeholder(p: string, at: nat)
  {
    && at + 2 <= |p| && OccursAt(p, "//", at) && NoneBefore(p, "//", at) && p[0] != '/' && ':' !in p
  }

  ghost predicate NoDoubledSlash(path: string) { !Contains(path, "//") }

  lemma MakesPlaceholder(a: string, b: string, at: nat)
    requires a != "" && '/' !in a && ':' !in a && ':' !in b && at + 2 <= |b| && b[at] == '/' && b[at + 1] == '/'
    requires forall k | 0 <= k < at :: b[k] != '/'
    ensures Placeholder(a + b, |a| + at)
  {
    SlashPairOccurs(a + b, |a| + at);
    forall k | 0 <= k < |a| + at ensures !OccursAt(a + b, "//", k) {
      SlashPairOccurs(a + b, k);
    }
  }

  predicate EndsInBackslash(path: string) { path != "" && path[|path| - 1] == '\\' }

  // ---------- the placeholder stands exactly where the colons were ----------

  // One character of the path, while a backslash has no colon right behind it.
  lemma EscapedStep(path: string, suffix: string, p: string)
    requires path != ""
    requires path[0] == '\\' ==> var tail := Escaped(path[1..]) + suffix; tail != "" && tail[0] != ':'
    ensures Replace(Escaped(path) + suffix, ESCAPED_COLON, p)
            == (if path[0] == ':' then p else [path[0]]) + Replace(Escaped(path[1..]) + suffix, ESCAPED_COLON, p)
  {
    var tail := Escaped(path[1..]) + suffix;
    EscapedFirst(path, suffix);
    hide Replace; hide Escaped;
    if path[0] == ':' {
      ReplaceHere(ESCAPED_COLON, tail, p);
    } else {
      ReplaceLater(path[0], tail, p);
    }
  }

  lemma EscapedFirst(path: string, suffix: string)
    requires path != ""
    ensures Escaped(path) + suffix
            == (if path[0] == ':' then ESCAPED_COLON else [path[0]]) + (Escaped(path[1..]) + suffix)
  {
    if path[0] == ':' {
      assert path[..1] == COLON;
    } else {
      assert path[..1] == [path[0]];
    }
  }

  lemma ReplaceHere(before: string, tail: string, p: string)
    requires before != ""
    ensures Replace(before + tail, before, p) == p + Replace(tail, before, p)
  {
    assert (before + tail)[..|before|] == before && (before + tail)[|before|..] == tail;
  }

  lemma ReplaceLater(c: char, tail: string, p: string)
    requires c == '\\' ==> tail != "" && tail[0] != ':'
    ensures Replace([c] + tail, ESCAPED_COLON, p) == [c] + Replace(tail, ESCAPED_COLON, p)
  {
    var s := [c] + tail;
    assert s[1..] == tail;
    if |s| >= 2 { assert s[..2] == [c] + [tail[0]]; }
  }

  // Behind an escaped path and a colon the line goes on by itself, whatever it holds.
  lemma {:induction false} EscapedAhead(path: string, rest: string, p: string)
    requires !EndsInBackslash(path)
    ensures Replace(Escaped(path) + (COLON + rest), ESCAPED_COLON, p)
            == Replace(path, COLON, p) + (COLON + Replace(rest, ESCAPED_COLON, p))
    decreases |path|
  {
    hide Replace;
    var end := COLON + Replace(rest, ESCAPED_COLON, p);
    if path == "" {
      EmptyPath(rest, p);
    } else {
      EscapedStart(path, rest);
      EscapedStep(path, COLON + rest, p);
      EscapedAhead(path[1..], rest, p);
      ReplaceStep(path, p);
      var c := if path[0] == ':' then p else [path[0]];
      assert c + (Replace(path[1..], COLON, p) + end) == c + Replace(path[1..], COLON, p) + end;
    }
  }

  lemma EmptyPath(rest: string, p: string)
    ensures Replace(Escaped("") + (COLON + rest), ESCAPED_COLON, p) == Replace("", COLON, p) + (COLON + Replace(rest, ESCAPED_COLON, p))
  {
    ReplaceLater(':', rest, p);
    assert "" + (COLON + rest) == [':'] + rest;
    assert "" + (COLON + Replace(rest, ESCAPED_COLON, p)) == [':'] + Replace(rest, ESCAPED_COLON, p);
  }

  lemma EscapedLine(path: string, rest: string, p: string)
    requires !EndsInBackslash(path) && '\\' !in rest
    ensures Replace(Escaped(path) + (COLON + rest), ESCAPED_COLON, p) == Replace(path, COLON, p) + (COLON + rest)
  {
    EscapedAhead(path, rest, p);
    NoBackslash(rest);
    ReplaceNone(rest, ESCAPED_COLON, p);
  }

  lemma ReplaceStep(path: string, p: string)
    requires path != ""
    ensures Replace(path, COLON, p) == (if path[0] == ':' then p else [path[0]]) + Replace(path[1..], COLON, p)
  {
    assert path[..1] == [path[0]];
  }

  lemma NoBackslash(s: string)
    requires '\\' !in s
    ensures !Contains(s, ESCAPED_COLON)
  {
    ContainedChar(s, ESCAPED_COLON, 0);
  }

  // After a backslash of the path comes either its escape or an ordinary character.
  lemma EscapedStart(path: string, rest: string)
    requires path != "" && !EndsInBackslash(path)
    ensures var tail := Escaped(path[1..]) + (COLON + rest);
            tail != "" && (path[0] == '\\' ==> tail[0] != ':')
  {
    if |path| > 1 {
      ReplaceStep(path[1..], ESCAPED_COLON);
    }
  }

  lemma {:induction false} NoColonLeft(path: string, p: string)
    requires ':' !in p
    ensures ':' !in Replace(path, COLON, p)
    decreases |path|
  {
    if path != "" {
      NoColonLeft(path[1..], p);
    }
  }

  lemma {:induction false} SomethingLeft(path: string, p: string)
    requires p != "" && path != ""
    ensures Replace(path, COLON, p) != ""
  {
  }

  predicate SlashPair(s: string, j: nat) { j + 1 < |s| && s[j] == '/' && s[j + 1] == '/' }

  lemma SlashPairOccurs(s: string, j: nat)
    ensures SlashPair(s, j) <==> OccursAt(s, "//", j)
  {
    if j + 2 <= |s| { assert s[j..j + 2] == [s[j], s[j + 1]]; }
  }

  lemma SlashPairInside(s: string, p: string, k: nat, at: nat)
    requires OccursAt(s, p, k) && SlashPair(p, at)
    ensures SlashPair(s, k + at)
  {
    assert s[k..k + |p|][at] == s[k + at] && s[k..k + |p|][at + 1] == s[k + at + 1];
  }

  // The two slashes would have to be in the path, across its end, or too early in the placeholder.
  lemma NoSlashPairThere(a: string, b: string, p: string, at: nat, k: nat)
    requires Placeholder(p, at) && NoDoubledSlash(a) && k < |a|
    ensures !SlashPair(a + p + b, k + at)
  {
    var s, j := a + p + b, k + at;
    if j + 1 < |a| {
      SlashPairOccurs(a, j);
      assert !OccursAt(a, "//", j);
      assert s[j] == a[j] && s[j + 1] == a[j + 1];
    } else if j + 1 == |a| {
      assert s[j + 1] == p[0];
    } else {
      SlashPairOccurs(p, j - |a|);
      assert !OccursAt(p, "//", j - |a|);
      assert s[j] == p[j - |a|] && s[j + 1] == p[j + 1 - |a|];
    }
  }

  // No placeholder begins before the first one that was put in.
  lemma FirstPlaceholder(a: string, b: string, p: string, at: nat)
    requires Placeholder(p, at) && NoDoubledSlash(a)
    ensures NoneBefore(a + p + b, p, |a|)
  {
    var s := a + p + b;
    SlashPairOccurs(p, at);
    forall k | 0 <= k < |a| ensures !OccursAt(s, p, k) {
      NoSlashPairThere(a, b, p, at, k);
      if OccursAt(s, p, k) {
        SlashPairInside(s, p, k, at);
      }
    }
  }

  lemma {:induction false} PlaceholdersBack(path: string, p: string, at: nat)
    requires Placeholder(p, at) && NoDoubledSlash(path)
    ensures Replace(Replace(path, COLON, p), p, COLON) == path
    decreases |path|
  {
    if ':' !in path {
      ContainedChar(path, COLON, 0);
      ReplaceNone(path, COLON, p);
      NoPlaceholder(path, p, at);
      ReplaceNone(path, p, COLON);
    } else {
      var a, b := CutAtColon(path);
      var inner := Replace(b, COLON, p);
      FirstColon(a, b);
      ReplaceFirst(a, COLON, b, p);
      NoDoubledSlashParts(a, b);
      FirstPlaceholder(a, inner, p, at);
      ReplaceFirst(a, p, inner, COLON);
      PlaceholdersBack(b, p, at);
    }
  }

  lemma NoPlaceholder(path: string, p: string, at: nat)
    requires Placeholder(p, at) && NoDoubledSlash(path)
    ensures !Contains(path, p)
  {
    if Contains(path, p) {
      var k :| 0 <= k <= |path| && OccursAt(path, p, k);
      assert path == path[..k] + p + path[k + |p|..];
      PartContains(path[..k], p, path[k + |p|..], "//");
    }
  }

  lemma PartContains(front: string, part: string, back: string, sub: string)
    ensures Contains(part, sub) ==> Contains(front + part + back, sub)
  {
    if Contains(part, sub) {
      var k :| 0 <= k <= |part| && OccursAt(part, sub, k);
      var s := front + part + back;
      assert s[|front| + k..|front| + k + |sub|] == part[k..k + |sub|];
      assert OccursAt(s, sub, |front| + k);
    }
  }

  lemma {:induction false} CutAtColon(path: string) returns (a: string, b: string)
    requires ':' in path
    ensures path == a + COLON + b && ':' !in a && |b| < |path|
    decreases |path|
  {
    if path[0] == ':' {
      a, b := "", path[1..];
    } else {
      a, b := CutAtColon(path[1..]);
      assert path == [path[0]] + path[1..];
      a := [path[0]] + a;
    }
  }

  lemma FirstColon(a: string, b: string)
    requires ':' !in a
    ensures NoneBefore(a + COLON + b, COLON, |a|)
  {
    var s := a + COLON + b;
    forall k | 0 <= k < |a| ensures !OccursAt(s, COLON, k) {
      assert s[k..k + 1][0] == a[k];
    }
  }

  lemma NoDoubledSlashParts(a: string, b: string)
    requires NoDoubledSlash(a + COLON + b)
    ensures NoDoubledSlash(a) && NoDoubledSlash(b)
  {
    PartContains("", a, COLON + b, "//");
    PartContains(a + COLON, b, "", "//");
    assert "" + a + (COLON + b) == a + COLON + b == a + COLON + b + "";
  }

  // ---------- the fields of a line ----------

  predicate PlainField(s: string)
  {
    s != "" && ':' !in s && '\\' !in s && '/' !in s
  }

  function Tail(fields: seq<string>): string
  {
    if fields == [] then "" else if |fields| == 1 then fields[0] else fields[0] + COLON + Tail(fields[1..])
  }

  // The fields come back; a colon at the end of the line adds nothing.
  lemma {:induction false} TailSplits(fields: seq<string>, dangling: string)
    requires fields != [] && (forall f | f in fields :: PlainField(f)) && (dangling == "" || dangling == COLON)
    ensures SkipEmpty(Split(Tail(fields) + dangling, COLON)) == fields && '\\' !in Tail(fields) + dangling
    decreases |fields|
  {
    var f := fields[0];
    assert f in fields && PlainField(f);
    if |fields| == 1 {
      LastField(f, dangling);
      assert fields == [f];
    } else {
      var rest := Tail(fields[1..]) + dangling;
      assert Tail(fields) + dangling == f + COLON + rest;
      FirstColon(f, rest);
      SplitFirst(f, COLON, rest);
      assert forall g | g in fields[1..] :: g in fields;
      TailSplits(fields[1..], dangling);
      SkipStep(f, Split(rest, COLON));
      assert fields == [f] + fields[1..];
    }
  }

  lemma LastField(f: string, dangling: string)
    requires PlainField(f) && (dangling == "" || dangling == COLON)
    ensures SkipEmpty(Split(f + dangling, COLON)) == [f]
  {
    SkipStep(f, []);
    assert [f] + [] == [f] && f + "" == f;
    if dangling == "" {
      ContainedChar(f, COLON, 0);
      SplitNone(f, COLON);
    } else {
      assert f + dangling == f + COLON + "";
      FirstColon(f, "");
      SplitFirst(f, COLON, "");
      assert Split("", COLON) == [""];
      SkipStep(f, [""]);
      assert SkipEmpty([""]) == [] + SkipEmpty([""][1..]);
    }
  }

  lemma SkipStep(f: string, parts: seq<string>)
    requires f != ""
    ensures SkipEmpty([f] + parts) == [f] + SkipEmpty(parts)
  {
    assert ([f] + parts)[1..] == parts;
  }

  // A line made of an escaped path and more, with the placeholder in: split at the colons.
  lemma LineSplitsAhead(path: string, rest: string, p: string)
    requires p != "" && ':' !in p && path != "" && !EndsInBackslash(path)
    ensures SkipEmpty(Split(Replace(Escaped(path) + (COLON + rest), ESCAPED_COLON, p), COLON))
            == [Replace(path, COLON, p)] + SkipEmpty(Split(Replace(rest, ESCAPED_COLON, p), COLON))
  {
    EscapedAhead(path, rest, p);
    var first, more := Replace(path, COLON, p), Replace(rest, ESCAPED_COLON, p);
    NoColonLeft(path, p);
    SomethingLeft(path, p);
    FirstColon(first, more);
    assert first + (COLON + more) == first + COLON + more;
    SplitFirst(first, COLON, more);
    SkipStep(first, Split(more, COLON));
  }

  lemma LineSplits(path: string, rest: string, p: string)
    requires p != "" && ':' !in p && path != "" && !EndsInBackslash(path) && '\\' !in rest
    ensures SkipEmpty(Split(Replace(Escaped(path) + (COLON + rest), ESCAPED_COLON, p), COLON))
            == [Replace(path, COLON, p)] + SkipEmpty(Split(rest, COLON))
  {
    LineSplitsAhead(path, rest, p);
    NoBackslash(rest);
    ReplaceNone(rest, ESCAPED_COLON, p);
  }

  // A path that ends in a backslash swallows the colon behind it.
  lemma {:induction false} SwallowedColon(front: string, rest: string, p: string)
    requires '\\' !in rest
    ensures Replace(Escaped(front + "\\") + (COLON + rest), ESCAPED_COLON, p) == Replace(front, COLON, p) + (p + rest)
    decreases |front|
  {
    if front == "" {
      LoneBackslash(rest, p);
      assert front + "\\" == "\\" && Replace(front, COLON, p) + (p + rest) == p + rest;
    } else {
      var path := front + "\\";
      assert path[1..] == front[1..] + "\\";
      BackslashFollows(front);
      EscapedStep(path, COLON + rest, p);
      SwallowedColon(front[1..], rest, p);
      ReplaceStep(front, p);
      var c := if path[0] == ':' then p else [path[0]];
      assert c + (Replace(front[1..], COLON, p) + (p + rest)) == c + Replace(front[1..], COLON, p) + (p + rest);
    }
  }

  lemma LoneBackslash(rest: string, p: string)
    requires '\\' !in rest
    ensures Replace(Escaped("\\") + (COLON + rest), ESCAPED_COLON, p) == p + rest
  {
    var s := "\\" + (COLON + rest);
    assert Escaped("\\") == "\\";
    assert s[..2] == ESCAPED_COLON && s[2..] == rest;
    NoBackslash(rest);
    ReplaceNone(rest, ESCAPED_COLON, p);
  }

  lemma BackslashFollows(front: string)
    requires front != ""
    ensures var tail := Escaped((front + "\\")[1..]); tail != "" && tail[0] != ':'
  {
    var next := (front + "\\")[1..];
    ReplaceStep(next, ESCAPED_COLON);
  }
}
