/** Path names: joining them, and when a name stands for the same file in two directories, in every file
    system. */
module ShellPaths {

  // The path join of the operating system.
  function JoinPath(base: string, dir: string): string {
    if IsAbsolute(dir) then dir
    else if base == "" || base[|base| - 1] == '/' then base + dir
    else base + "/" + dir
  }

  predicate IsAbsolute(s: string) {
    s != "" && s[0] == '/'
  }

  // A relative name of the directory it is in: single dots between slashes.
  predicate IsHere(dir: string) {
    !IsAbsolute(dir) && OnlyDots(dir)
  }

  predicate OnlyDots(s: string) {
    && (forall k | 0 <= k < |s| :: s[k] == '.' || s[k] == '/')
    && (forall k | 0 < k < |s| :: s[k - 1] == '/' || s[k] == '/')
  }

  // A file that is named where it all started, or in another directory.
  datatype File = AtStart(name: string) | Under(dir: string, name: string)

  // The file that a name stands for in a directory.
  function FileIn(dir: string, name: string): File {
    if IsAbsolute(name) || IsHere(dir) then AtStart(name) else Under(dir, name)
  }

  // ------------------------------------------------------------------ the same file in every file system

  // A path up to dots and repeated slashes.
  datatype Path = Path(absolute: bool, parts: seq<string>)

  function FirstSlash(s: string): (i: nat)
    ensures i <= |s| && (i < |s| ==> s[i] == '/') && forall k | 0 <= k < i :: s[k] != '/'
  {
    if s == "" || s[0] == '/' then 0 else 1 + FirstSlash(s[1..])
  }

  function Part(s: string): seq<string> {
    if s == "" || s == "." then [] else [s]
  }

  function Parts(s: string): seq<string> {
    var i := FirstSlash(s);
    if i == |s| then Part(s) else Part(s[..i]) + Parts(s[i + 1..])
  }

  function PathOf(s: string): Path {
    Path(IsAbsolute(s), Parts(s))
  }

  lemma {:induction false} FirstSlashOfJoin(a: string, b: string)
    ensures FirstSlash(a + "/" + b) == FirstSlash(a)
  {
    var s := a + "/" + b;
    if a == "" {
      assert s[0] == '/';
    } else if a[0] != '/' {
      assert s[0] == a[0] && s[1..] == a[1..] + "/" + b;
      FirstSlashOfJoin(a[1..], b);
    }
  }

  lemma {:induction false} PartsOfJoin(a: string, b: string)
    ensures Parts(a + "/" + b) == Parts(a) + Parts(b)
    decreases |a|
  {
    var s, i := a + "/" + b, FirstSlash(a);
    FirstSlashOfJoin(a, b);
    assert s[..i] == a[..i];
    if i == |a| {
      assert a[..i] == a && s[i + 1..] == b;
    } else {
      assert s[i + 1..] == a[i + 1..] + "/" + b;
      PartsOfJoin(a[i + 1..], b);
    }
  }

  lemma PartsOfSlash(front: string)
    ensures Parts(front + "/") == Parts(front)
  {
    PartsOfJoin(front, "");
    assert front + "/" + "" == front + "/";
  }

  lemma PartsAfterSlash(front: string, file: string)
    ensures Parts(front + "/" + file) == Parts(front + "/") + Parts(file)
  {
    PartsOfJoin(front, file);
    PartsOfSlash(front);
  }

  // A name that is not absolute adds its parts to those of the directory.
  lemma JoinedParts(dir: string, file: string)
    requires !IsAbsolute(file)
    ensures Parts(JoinPath(dir, file)) == Parts(dir) + Parts(file)
  {
    if dir == "" {
      assert "" + file == file;
    } else if dir[|dir| - 1] == '/' {
      var front := dir[..|dir| - 1];
      assert dir == front + "/";
      PartsAfterSlash(front, file);
    } else {
      PartsOfJoin(dir, file);
    }
  }

  lemma DotsAroundSlash(a: string, b: string)
    ensures OnlyDots(a + "/" + b) <==> OnlyDots(a) && OnlyDots(b)
  {
    var s, n := a + "/" + b, |a| + 1;
    assert forall k | 0 <= k < |a| :: s[k] == a[k];
    assert forall k | n <= k < |s| :: s[k] == b[k - n];
    if OnlyDots(s) {
      forall k | 0 <= k < |b|
        ensures b[k] == '.' || b[k] == '/'
        ensures k > 0 ==> b[k - 1] == '/' || b[k] == '/'
      {
        assert s[k + n] == b[k] && (k > 0 ==> s[k + n - 1] == b[k - 1]);
      }
    }
  }

  /** A joined path is the name if that is absolute, and else the parts of both, as absolute as the directory. */
  lemma JoinedPath(dir: string, name: string)
    requires dir != ""
    ensures PathOf(JoinPath(dir, name))
      == if IsAbsolute(name) then PathOf(name) else Path(IsAbsolute(dir), Parts(dir) + Parts(name))
  {
    if !IsAbsolute(name) {
      JoinedParts(dir, name);
      assert JoinPath(dir, name)[0] == dir[0];
    }
  }

  lemma {:induction false} NoPartsIff(s: string)
    ensures Parts(s) == [] <==> OnlyDots(s)
    decreases |s|
  {
    var i := FirstSlash(s);
    if i == |s| {
      OneSegment(s);
    } else {
      var a, b := s[..i], s[i + 1..];
      OneSegment(a);
      NoPartsIff(b);
      assert s == a + "/" + b;
      DotsAroundSlash(a, b);
    }
  }

  lemma OneSegment(s: string)
    requires '/' !in s
    ensures Part(s) == [] <==> OnlyDots(s)
  {
    if |s| >= 2 {
      assert s[0] in s;
      assert s[1] in s;
    }
  }

  /** A name stands for the same path in a directory as where it all started, up to dots and repeated
      slashes, exactly when it is absolute or the directory is still that one. */
  lemma SameFileIff(dir: string, name: string)
    requires dir != ""
    ensures PathOf(JoinPath(dir, name)) == PathOf(name) <==> FileIn(dir, name) == AtStart(name)
  {
    if !IsAbsolute(name) {
      JoinedParts(dir, name);
      NoPartsIff(dir);
      if PathOf(JoinPath(dir, name)) == PathOf(name) {
        assert |Parts(dir)| == 0;
        assert !IsAbsolute(dir) by {
          assert JoinPath(dir, name)[0] == dir[0];
        }
      }
    }
  }

  // A directory is still the one it was after a change that names no other.
  lemma StaysHereIff(dir: string, change: string)
    requires dir != ""
    ensures JoinPath(dir, change) != ""
    ensures IsHere(JoinPath(dir, change)) <==> IsHere(dir) && IsHere(change)
  {
    if !IsAbsolute(change) {
      JoinedParts(dir, change);
      NoPartsIff(dir);
      NoPartsIff(change);
      NoPartsIff(JoinPath(dir, change));
      assert JoinPath(dir, change)[0] == dir[0];
    }
  }
}
