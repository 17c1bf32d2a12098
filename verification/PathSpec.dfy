/** Paths as strings: the segments a walk looks up one after the other, and the
    split into directory and file name. */
module PathSpec {

  /** The segments still to come, given the characters left and the part of a
      segment already read. A slash ends a segment, even an empty one. */
  function Split(rest: string, name: string): seq<string> {
    if rest == "" then []
    else if rest[0] == '/' then [name] + Split(rest[1..], "")
    else if |rest| == 1 then [name + rest]
    else Split(rest[1..], name + [rest[0]])
  }

  /** What search_d_hash looks up: nothing for a path of one character, and
      no empty segment for a leading slash */
  function Segments(path: string): seq<string> {
    if |path| <= 1 then []
    else if path[0] == '/' then Split(path[1..], "")
    else Split(path, "")
  }

  /** The last slash below n that is not the last character; 0 if there is none */
  function LastSlash(path: string, n: nat): (j: nat)
    requires n <= |path|
    ensures j == 0 || (j < n && path[j] == '/' && j + 1 < |path|)
    ensures forall i :: j < i < n && i + 1 < |path| ==> path[i] != '/'
  {
    if n == 0 then 0
    else if path[n - 1] == '/' && n < |path| then n - 1
    else LastSlash(path, n - 1)
  }

  /** Up to and with the last slash */
  function DirName(path: string): string
    requires |path| > 0
  {
    path[..LastSlash(path, |path|) + 1]
  }

  function DropSlash(s: string): string {
    if s != "" && s[|s| - 1] == '/' then s[..|s| - 1] else s
  }

  /** The rest, without a slash at its end */
  function FileName(path: string): string
    requires |path| > 1
  {
    DropSlash(path[LastSlash(path, |path|) + 1..])
  }

  ghost predicate NoSlash(s: string) {
    forall i :: 0 <= i < |s| ==> s[i] != '/'
  }

  /** Directory and file name make up the path, but for a slash at its end, and
      the file name has none */
  lemma DealCovers(path: string)
    requires |path| > 1
    ensures NoSlash(FileName(path)) && 0 < |DirName(path)| <= |path|
    ensures DirName(path) + FileName(path) == path
         || DirName(path) + FileName(path) + "/" == path
    ensures path[0] == '/' ==> DirName(path)[0] == '/' && DirName(path)[|DirName(path)| - 1] == '/'
  {
    var j := LastSlash(path, |path|);
    var rest := path[j + 1..];
    assert forall i :: 0 <= i < |rest| - 1 ==> rest[i] == path[j + 1 + i];
    assert DirName(path) + rest == path;
    if DropSlash(rest) != rest {
      assert DropSlash(rest) + "/" == rest;
      assert DirName(path) + FileName(path) + "/" == DirName(path) + (FileName(path) + "/");
    }
  }

  /** Reading past a slash starts a new segment */
  lemma {:induction false} SplitAtSlash(a: string, b: string, name: string)
    ensures Split(a + "/" + b, name) == Split(a + "/", name) + Split(b, "")
    decreases |a|
  {
    var s, t := a + "/" + b, a + "/";
    if a == "" {
      assert s[0] == '/' && s[1..] == b && t[1..] == "";
    } else {
      assert s[0] == t[0] == a[0] && s[1..] == a[1..] + "/" + b && t[1..] == a[1..] + "/";
      SplitAtSlash(a[1..], b, if a[0] == '/' then "" else name + [a[0]]);
      if a[0] == '/' {
        assert [name] + (Split(t[1..], "") + Split(b, "")) == [name] + Split(t[1..], "") + Split(b, "");
      }
    }
  }

  lemma {:induction false} SplitWord(s: string, name: string)
    requires NoSlash(s)
    ensures s != "" ==> Split(s, name) == [name + s]
    ensures Split(s + "/", name) == [name + s]
    decreases |s|
  {
    if s == "" {
      assert name + s == name;
      assert Split("", "") == [];
      assert (s + "/")[1..] == "";
    } else {
      assert (s + "/")[1..] == s[1..] + "/";
      SplitWord(s[1..], name + [s[0]]);
      assert name + [s[0]] + s[1..] == name + s;
    }
  }

  lemma SplitName(rest: string)
    requires rest != "" && NoSlash(DropSlash(rest))
    ensures Split(rest, "") == [DropSlash(rest)]
  {
    hide Split, NoSlash;
    var name := DropSlash(rest);
    SplitWord(name, "");
    assert "" + name == name;
    if rest[|rest| - 1] == '/' {
      assert rest == name + "/";
    }
  }

  /** Splitting a path agrees with walking it: the segments of an absolute path
      are those of its directory name and then its file name */
  lemma DealAgreesWithWalk(path: string)
    requires |path| > 1 && path[0] == '/'
    ensures Segments(path) == Segments(DirName(path)) + [FileName(path)]
  {
    hide Split, DropSlash, NoSlash;
    DealCovers(path);
    var j := LastSlash(path, |path|);
    var rest := path[j + 1..];
    SplitName(rest);
    if j > 0 {
      hide LastSlash;
      var a := path[1..j];
      assert DirName(path)[1..] == a + "/";
      assert path[1..] == a + "/" + rest;
      SplitAtSlash(a, rest, "");
    }
  }

  /** Only for absolute paths: the first character of another one goes missing */
  lemma RelativePathsDisagree()
    ensures Segments("ab") == ["ab"] && Segments(DirName("ab")) + [FileName("ab")] == ["b"]
  {
    assert LastSlash("ab", 2) == 0;
    assert "ab"[1..] == "b" && "ab"[..1] == "a";
    assert Split("b", "a") == ["a" + "b"] && "a" + "b" == "ab";
    assert Split("ab", "") == Split("b", "" + ['a']) && "" + ['a'] == "a";
  }
}
