/**
 Working-directory spellings (crates/cdr-codex-state/src/session_index.rs), with
 POSIX path components: a root, `.`, `..` and names separated by `/`.
 */
module WorkspacePaths {
  import opened Text

  const EXTENDED: string := "\\\\?\\"
  const EXTENDED_UNC: string := "\\\\?\\UNC\\"

  /** `strip_windows_extended_prefix`. */
  function StripExtendedPrefix(path: string): string {
    var value := Trim(path);
    if EXTENDED_UNC <= value then "\\\\" + value[|EXTENDED_UNC|..]
    else if EXTENDED <= value then value[|EXTENDED|..]
    else value
  }

  /** The non-empty stretches between separators are the path's components. */
  function Split(s: string, separator: char): (parts: seq<string>)
    ensures parts != []
  {
    if s == [] then [[]]
    else
      var rest := Split(s[1..], separator);
      if s[0] == separator then [[]] + rest else [[s[0]] + rest[0]] + rest[1..]
  }

  /** The names left on the path after one more component. */
  function Push(names: seq<string>, component: string): seq<string> {
    if component == [] || component == "." then names
    else if component == ".." then (if names == [] then [] else names[..|names| - 1])
    else names + [component]
  }

  function Walk(names: seq<string>, components: seq<string>): seq<string>
    decreases |components|
  {
    if components == [] then names else Walk(Push(names, components[0]), components[1..])
  }

  function Render(absolute: bool, names: seq<string>): string {
    (if absolute then "/" else "") + Join(names, "/")
  }

  /** The normal form of a path: its root and the names that survive `.` and `..`. */
  function Normalized(path: string): string {
    var stripped := StripExtendedPrefix(path);
    if stripped == [] then [] else Render(stripped[0] == '/', Walk([], Split(stripped, '/')))
  }

  /** `normalize_workspace_path` on a platform with POSIX paths. */
  method NormalizeWorkspacePath(path: string) returns (normal: string)
    ensures normal == Normalized(path)
  {
    var stripped := StripExtendedPrefix(path);
    if stripped == [] {
      return [];
    }
    var components := Split(stripped, '/');
    var names: seq<string> := [];
    for i := 0 to |components|
      invariant Walk(names, components[i..]) == Walk([], components)
    {
      assert components[i..][1..] == components[i + 1..];
      if components[i] == [] || components[i] == "." {
      } else if components[i] == ".." {
        names := if names == [] then [] else names[..|names| - 1];
      } else {
        names := names + [components[i]];
      }
    }
    return Render(stripped[0] == '/', names);
  }

  predicate Absolute(path: string) {
    var stripped := StripExtendedPrefix(path);
    stripped != [] && stripped[0] == '/'
  }

  lemma {:induction false} SplitAtomic(s: string, separator: char)
    requires separator !in s
    ensures Split(s, separator) == [s]
  {
    if s == [] {
    } else {
      assert s[0] in s && s == [s[0]] + s[1..];
      SplitAtomic(s[1..], separator);
    }
  }

  /** Names that stay on a path: neither empty nor special, and without a separator. */
  predicate Ordinary(name: string) {
    name != [] && name != "." && name != ".." && '/' !in name
  }

  predicate OrdinaryNames(names: seq<string>) {
    forall i | 0 <= i < |names| :: Ordinary(names[i])
  }

  lemma {:induction false} SplitParts(s: string, separator: char)
    ensures forall i | 0 <= i < |Split(s, separator)| :: separator !in Split(s, separator)[i]
  {
    if s == [] {
    } else {
      SplitParts(s[1..], separator);
    }
  }

  lemma {:induction false} WalkOrdinary(names: seq<string>, components: seq<string>)
    requires OrdinaryNames(names)
    requires forall i | 0 <= i < |components| :: '/' !in components[i]
    ensures OrdinaryNames(Walk(names, components))
    decreases |components|
  {
    if components == [] {
    } else {
      WalkOrdinary(Push(names, components[0]), components[1..]);
    }
  }

  lemma {:induction false} WalkAppend(names: seq<string>, a: seq<string>, b: seq<string>)
    ensures Walk(names, a + b) == Walk(Walk(names, a), b)
    decreases |a|
  {
    if a == [] {
      assert a + b == b;
    } else {
      assert (a + b)[1..] == a[1..] + b;
      WalkAppend(Push(names, a[0]), a[1..], b);
    }
  }

  /** Stepping into a directory and back out, or staying put, leaves the normal form alone, anywhere in a path. */
  lemma {:induction false} DetoursVanish(before: seq<string>, name: string, after: seq<string>)
    requires Ordinary(name)
    ensures Walk([], before + [name, ".."] + after) == Walk([], before + after)
    ensures Walk([], before + ["."] + after) == Walk([], before + after)
    ensures Walk([], before + [""] + after) == Walk([], before + after)
  {
    var names := Walk([], before);
    WalkAppend([], before, after);
    WalkAppend([], before + [name, ".."], after);
    WalkAppend([], before, [name, ".."]);
    assert Push(Push(names, name), "..") == names;
    assert [name, ".."][1..] == [".."] && [".."][1..] == [];
    assert Walk(names, [name, ".."]) == Walk(Push(names, name), [".."]);
    assert Walk(Push(names, name), [".."]) == Walk(names, []);
    WalkAppend([], before + ["."], after);
    WalkAppend([], before, ["."]);
    WalkAppend([], before + [""], after);
    WalkAppend([], before, [""]);
  }

  lemma {:induction false} SplitPrefix(name: string, rest: string)
    requires '/' !in name
    ensures Split(name + "/" + rest, '/') == [name] + Split(rest, '/')
  {
    var s := name + "/" + rest;
    if name == [] {
      assert s[1..] == rest;
    } else {
      assert name[0] in name && s[1..] == name[1..] + "/" + rest;
      SplitPrefix(name[1..], rest);
      var tail := [name[1..]] + Split(rest, '/');
      assert tail[1..] == Split(rest, '/') && [name[0]] + tail[0] == name;
    }
  }

  lemma {:induction false} SplitJoin(names: seq<string>)
    requires names != [] && OrdinaryNames(names)
    ensures Split(Join(names, "/"), '/') == names && Join(names, "/") != [] && Join(names, "/")[0] != '/'
  {
    assert Ordinary(names[0]) && names[0][0] in names[0];
    if |names| == 1 {
      SplitAtomic(names[0], '/');
    } else {
      SplitJoin(names[1..]);
      SplitPrefix(names[0], Join(names[1..], "/"));
    }
  }

  function PathNames(path: string): seq<string> {
    Walk([], Split(StripExtendedPrefix(path), '/'))
  }

  /**
   The normal form of a non-empty path determines its root and the names on it: two
   paths have equal forms exactly then.
   */
  lemma {:induction false} NormalFormDecides(p: string, q: string)
    requires StripExtendedPrefix(p) != [] && StripExtendedPrefix(q) != []
    ensures Normalized(p) == Normalized(q) <==> Absolute(p) == Absolute(q) && PathNames(p) == PathNames(q)
  {
    SplitParts(StripExtendedPrefix(p), '/');
    SplitParts(StripExtendedPrefix(q), '/');
    WalkOrdinary([], Split(StripExtendedPrefix(p), '/'));
    WalkOrdinary([], Split(StripExtendedPrefix(q), '/'));
    var a, b := PathNames(p), PathNames(q);
    if a != [] { SplitJoin(a); }
    if b != [] { SplitJoin(b); }
    var x, y := Join(a, "/"), Join(b, "/");
    assert ("/" + x)[1..] == x && ("/" + y)[1..] == y;
    assert "" + x == x && "" + y == y;
  }

  /** A single name never normalizes to anything an absolute path normalizes to. */
  lemma {:induction false} NameIsNotAbsolute(name: string, path: string)
    requires name != [] && Tight(name) && '/' !in name && '\\' !in name && Absolute(path)
    ensures Normalized(name) != Normalized(path)
  {
    TrimTight(name);
    assert name[0] in name;
    assert StripExtendedPrefix(name) == name;
    SplitAtomic(name, '/');
    assert Walk([], [name]) == Push([], name);
    assert Push([], name) == [] || Push([], name) == [name];
    assert Normalized(path)[0] == '/';
    assert Normalized(name) == [] || Normalized(name)[0] == name[0];
  }

  lemma {:induction false} PlainPath(path: string)
    requires path != [] && Tight(path) && path[0] != '\\'
    ensures StripExtendedPrefix(path) == path
  {
    TrimTight(path);
  }

  /** A folder and the same folder followed by `/.` have one normal form, the folder name. */
  lemma {:induction false} DotPath(name: string)
    requires Ordinary(name) && Tight(name) && name[0] != '\\'
    ensures Normalized(name + "/" + ".") == Normalized(name)
  {
    var path := name + "/" + ".";
    PlainPath(name);
    PlainPath(path);
    SplitAtomic(name, '/');
    SplitPrefix(name, ".");
    SplitAtomic(".", '/');
    DetoursVanish([name], name, []);
    assert [name] + ["."] + [] == [name] + ["."];
    assert [name] + [] == [name];
    assert path[0] == name[0];
  }

  /** There is no way up from the start of a path. */
  lemma {:induction false} NoParentOfTheStart(after: seq<string>)
    ensures Walk([], [".."] + after) == Walk([], after)
  {
    assert ([".."] + after)[0] == ".." && ([".."] + after)[1..] == after;
  }

  lemma {:induction false} WalkOrdinaryNames(names: seq<string>, more: seq<string>)
    requires OrdinaryNames(more)
    ensures Walk(names, more) == names + more
    decreases |more|
  {
    if more == [] {
    } else {
      assert Ordinary(more[0]);
      WalkOrdinaryNames(names + [more[0]], more[1..]);
      assert names + more == names + [more[0]] + more[1..];
    }
  }

  /** An absolute path of ordinary names is its own normal form, and every normal form is one or relative. */
  lemma {:induction false} OrdinaryPathIsNormal(names: seq<string>)
    requires names != [] && OrdinaryNames(names) && Tight("/" + Join(names, "/"))
    ensures Normalized("/" + Join(names, "/")) == "/" + Join(names, "/")
  {
    var joined := Join(names, "/");
    var path := "/" + joined;
    hide Trim, Join;
    PlainPath(path);
    SplitJoin(names);
    SplitPrefix("", joined);
    assert "" + "/" + joined == path;
    WalkOrdinaryNames([], names);
    assert ([""] + names)[1..] == names && Push([], "") == [];
    assert Walk([], [""] + names) == Walk([], names);
    assert [] + names == names;
  }
}
