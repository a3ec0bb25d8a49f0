/** The parts of java.io.File and java.lang.String that the deployer relies on:
    building a child path, taking a path's base name, making a path absolute,
    and comparing two names while ignoring case. Unix separators throughout. */
module Files {

  /** A java.io.File, represented by the path it was built from. */
  datatype File = File(path: string)

  predicate IsAbsolute(path: string) {
    |path| > 0 && path[0] == '/'
  }

  /** new File(dir, name): an empty parent resolves against the root, and a
      parent that already ends in a separator gets no second one. */
  function Child(dir: File, name: string): File {
    if dir.path == "" then File("/" + name)
    else if dir.path[|dir.path| - 1] == '/' then File(dir.path + name)
    else File(dir.path + "/" + name)
  }

  /** The child's path is the parent's path without a trailing separator
      (empty for an empty parent), one separator, then the name. */
  lemma ChildShape(dir: File, name: string)
    ensures var p := Child(dir, name).path;
            |p| > |name| && p[|p| - |name| - 1] == '/' && p[|p| - |name|..] == name
            && p[..|p| - |name| - 1]
               == if dir.path != "" && dir.path[|dir.path| - 1] == '/'
                  then dir.path[..|dir.path| - 1] else dir.path
  {
    var p := Child(dir, name).path;
    if dir.path == "" {
      assert p == "/" + name;
    } else if dir.path[|dir.path| - 1] == '/' {
      assert p == dir.path[..|dir.path| - 1] + "/" + name;
    } else {
      assert p == dir.path + "/" + name;
    }
  }

  /** Index of the last separator in a path, or -1 when there is none. */
  function LastSeparator(s: string): int {
    if s == [] then -1
    else if s[|s| - 1] == '/' then |s| - 1
    else LastSeparator(s[..|s| - 1])
  }

  lemma {:induction false} LastSeparatorSpec(s: string)
    ensures var r := LastSeparator(s);
            -1 <= r < |s| && (r >= 0 ==> s[r] == '/') && forall k :: r < k < |s| ==> s[k] != '/'
  {
    if s != [] && s[|s| - 1] != '/' {
      LastSeparatorSpec(s[..|s| - 1]);
    }
  }

  /** File.getName(): everything after the last separator. */
  function Name(f: File): string {
    var r := LastSeparator(f.path);
    LastSeparatorSpec(f.path);
    f.path[r + 1..]
  }

  /** The base name holds no separator and ends the path. */
  lemma NameShape(f: File)
    ensures '/' !in Name(f)
    ensures |Name(f)| <= |f.path| && f.path[|f.path| - |Name(f)|..] == Name(f)
  {
    LastSeparatorSpec(f.path);
  }

  /** The watcher builds File(dir, name) for a single-component name and then
      compares the base name of that file; the base name is the name itself. */
  lemma NameOfChild(dir: File, name: string)
    requires '/' !in name
    ensures Name(Child(dir, name)) == name
  {
    var p := Child(dir, name).path;
    var r := LastSeparator(p);
    ChildShape(dir, name);
    LastSeparatorSpec(p);
    assert p[|p| - |name| - 1] == '/';
    assert r >= |p| - |name| - 1;
    forall k | |p| - |name| <= k < |p| ensures p[k] != '/' {
      assert p[k] == name[k - (|p| - |name|)];
    }
  }

  /** File.getAbsolutePath(), resolving a relative path against the working
      directory `cwd` (the user.dir property). */
  function AbsolutePath(f: File, cwd: string): (r: string)
    ensures IsAbsolute(f.path) ==> r == f.path
    ensures IsAbsolute(cwd) ==> IsAbsolute(r)
    ensures !IsAbsolute(f.path) && f.path != "" ==> |f.path| < |r| && r[|r| - |f.path|..] == f.path
  {
    if IsAbsolute(f.path) then f.path
    else if f.path == "" then cwd
    else if cwd == "/" then "/" + f.path
    else cwd + "/" + f.path
  }

  /** Character.toLowerCase restricted to ASCII letters. */
  function Fold(c: char): char {
    if 'A' <= c <= 'Z' then (c as int + 32) as char else c
  }

  /** String.equalsIgnoreCase for ASCII: same length, and every pair of
      characters at the same position agrees once folded to lower case. */
  predicate EqualsIgnoreCase(a: string, b: string) {
    |a| == |b| && forall i :: 0 <= i < |a| ==> Fold(a[i]) == Fold(b[i])
  }

  /** The lower-cased string, an independent definition of the comparison. */
  function Lower(s: string): string {
    if s == [] then [] else [Fold(s[0])] + Lower(s[1..])
  }

  lemma {:induction false} LowerAt(s: string, i: nat)
    requires i < |s|
    ensures |Lower(s)| == |s| && Lower(s)[i] == Fold(s[i])
  {
    LowerLength(s);
    if i > 0 {
      LowerAt(s[1..], i - 1);
    }
  }

  lemma {:induction false} LowerLength(s: string)
    ensures |Lower(s)| == |s|
  {
    if s != [] {
      LowerLength(s[1..]);
    }
  }

  /** Two names are equal ignoring case exactly when their lower-case forms
      are equal; in particular the comparison is an equivalence. */
  lemma EqualsIgnoreCaseIffLower(a: string, b: string)
    ensures EqualsIgnoreCase(a, b) <==> Lower(a) == Lower(b)
  {
    LowerLength(a);
    LowerLength(b);
    if EqualsIgnoreCase(a, b) {
      forall i | 0 <= i < |a| ensures Lower(a)[i] == Lower(b)[i] {
        LowerAt(a, i);
        LowerAt(b, i);
      }
    }
    if Lower(a) == Lower(b) {
      forall i | 0 <= i < |a| ensures Fold(a[i]) == Fold(b[i]) {
        LowerAt(a, i);
        LowerAt(b, i);
      }
    }
  }
}
