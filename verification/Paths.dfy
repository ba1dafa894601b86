/** SFTP paths: "/space/rest", split into the name of a space and a path inside it. */
module Paths {

  /** Position of the first slash, or the length. */
  function Slash(s: string): (i: nat)
    ensures i <= |s| && (i < |s| ==> s[i] == '/') && '/' !in s[..i]
  {
    if s == "" || s[0] == '/' then 0
    else
      var i := 1 + Slash(s[1..]);
      assert s[..i] == [s[0]] + s[1..][..i - 1];
      i
  }

  predicate StartsWithSlash(s: string) {
    0 < |s| && s[0] == '/'
  }

  predicate EndsWithSlash(s: string) {
    0 < |s| && s[|s| - 1] == '/'
  }

  function TrimPrefix(s: string): string {
    if StartsWithSlash(s) then s[1..] else s
  }

  function TrimSuffix(s: string): string {
    if EndsWithSlash(s) then s[..|s| - 1] else s
  }

  /** At most two parts, cut at the first slash. */
  function SplitInTwo(s: string): seq<string> {
    if Slash(s) == |s| then [s] else [s[..Slash(s)], s[Slash(s) + 1..]]
  }

  function SplitAbsolutePath(path: string): (string, string) {
    var parts := SplitInTwo(TrimPrefix(path));
    if parts[0] == "" then ("", "")
    else
      var rest := if |parts| == 2 then "/" + parts[1] else "";
      var rest' := if rest == "" then "/" else rest;
      (parts[0], if rest' != "/" then TrimSuffix(rest') else rest')
  }

  /** A name that can be one path element. */
  predicate IsName(s: string) {
    s != "" && '/' !in s
  }

  /** A path inside a space, without a slash at its end unless it is the space itself. */
  predicate IsCanonical(rest: string) {
    rest == "/" || (StartsWithSlash(rest) && !EndsWithSlash(rest))
  }

  function Join(name: string, rest: string): string {
    "/" + name + rest
  }

  lemma {:induction false} SlashAfterName(name: string, rest: string)
    requires '/' !in name && (rest == "" || StartsWithSlash(rest))
    ensures Slash(name + rest) == |name|
    decreases |name|
  {
    var s := name + rest;
    if name == "" {
      assert s == rest;
    } else {
      assert s[1..] == name[1..] + rest;
      assert forall c | c in name[1..] :: c in name;
      SlashAfterName(name[1..], rest);
    }
  }

  /** Splitting undoes joining exactly for the canonical rests; of any other it takes one slash off the end. */
  lemma SplitOfJoin(name: string, rest: string)
    requires IsName(name) && StartsWithSlash(rest)
    ensures SplitAbsolutePath(Join(name, rest)) == (name, if rest == "/" then rest else TrimSuffix(rest))
    ensures SplitAbsolutePath(Join(name, rest)) == (name, rest) <==> IsCanonical(rest)
    ensures SplitAbsolutePath("/" + name) == (name, "/")
  {
    assert Join(name, rest)[1..] == name + rest;
    SlashAfterName(name, rest);
    assert (name + rest)[..|name|] == name && (name + rest)[|name| + 1..] == rest[1..];
    assert "/" + rest[1..] == rest;
    assert ("/" + name)[1..] == name + "";
    SlashAfterName(name, "");
    assert name + "" == name;
  }

  /** What splitting does, in terms of the first slash. */
  lemma SplitShape(path: string)
    requires SplitAbsolutePath(path).0 != ""
    ensures var t := TrimPrefix(path); var rest := t[Slash(t)..];
            SplitAbsolutePath(path) ==
              (t[..Slash(t)], if rest == "" || rest == "/" then "/" else TrimSuffix(rest))
  {
    var t := TrimPrefix(path);
    var i := Slash(t);
    if i < |t| {
      assert "/" + t[i + 1..] == t[i..];
      assert SplitInTwo(t) == [t[..i], t[i + 1..]];
    } else {
      assert t[..i] == t && t[i..] == "";
    }
  }

  /** Joining undoes splitting for every absolute path without a slash at its end that names a space. */
  lemma JoinOfSplit(path: string)
    requires StartsWithSlash(path) && !EndsWithSlash(path)
    requires SplitAbsolutePath(path).0 != ""
    ensures var (name, rest) := SplitAbsolutePath(path);
            IsName(name) && IsCanonical(rest) && path == if rest == "/" then "/" + name else Join(name, rest)
  {
    var t := path[1..];
    var i := Slash(t);
    assert SplitAbsolutePath(path) == (t[..i], if t[i..] == "" || t[i..] == "/" then "/" else TrimSuffix(t[i..])) by {
      SplitShape(path);
    }
    assert path == "/" + t;
    JoinParts(t, i);
  }

  lemma JoinParts(t: string, i: nat)
    requires i <= |t| && !EndsWithSlash("/" + t) && (i < |t| ==> t[i] == '/') && '/' !in t[..i] && 0 < i
    ensures IsName(t[..i]) && (i < |t| ==> t[i..] != "/" && IsCanonical(t[i..]) && TrimSuffix(t[i..]) == t[i..])
    ensures "/" + t == "/" + t[..i] + t[i..]
  {
    if i < |t| {
      assert t[i..][|t| - i - 1] == t[|t| - 1] == ("/" + t)[|t|];
    }
  }

  /** No space is named exactly by the paths that are empty or have two slashes where one belongs. */
  lemma NamesNoSpace(path: string)
    ensures SplitAbsolutePath(path).0 == "" <==> TrimPrefix(path) == "" || StartsWithSlash(TrimPrefix(path))
    ensures SplitAbsolutePath(path).0 == "" ==> SplitAbsolutePath(path).1 == ""
    ensures '/' !in SplitAbsolutePath(path).0
  {
  }

  // ----- the path inside a space as a list of names -----

  /** The non-empty elements between slashes. */
  function Segments(s: string): (names: seq<string>)
    ensures forall n | n in names :: IsName(n)
    decreases |s|
  {
    if s == "" then []
    else if s[0] == '/' then Segments(s[1..])
    else [s[..Slash(s)]] + Segments(s[Slash(s)..])
  }

  lemma {:induction false} SegmentsOfChild(s: string, name: string)
    requires IsName(name)
    ensures Segments(s + "/" + name) == Segments(s) + [name]
    decreases |s|
  {
    var c := s + "/" + name;
    if s == "" {
      assert c[1..] == name + "";
      SlashAfterName(name, "");
      assert name[..|name|] == name && Segments(name[|name|..]) == [];
    } else if s[0] == '/' {
      assert c[1..] == s[1..] + "/" + name;
      SegmentsOfChild(s[1..], name);
    } else {
      var i := Slash(s);
      assert s == s[..i] + s[i..];
      assert c == s[..i] + (s[i..] + "/" + name);
      SlashAfterName(s[..i], s[i..] + "/" + name);
      assert c[..i] == s[..i] && c[i..] == s[i..] + "/" + name;
      SegmentsOfChild(s[i..], name);
    }
  }

  lemma {:induction false} SegmentsIgnoreLastSlash(s: string)
    ensures Segments(s + "/") == Segments(s)
    decreases |s|
  {
    var c := s + "/";
    if s == "" {
      assert c[1..] == "";
    } else if s[0] == '/' {
      assert c[1..] == s[1..] + "/";
      SegmentsIgnoreLastSlash(s[1..]);
    } else {
      var i := Slash(s);
      assert s == s[..i] + s[i..];
      assert c == s[..i] + (s[i..] + "/");
      SlashAfterName(s[..i], s[i..] + "/");
      assert c[..i] == s[..i] && c[i..] == s[i..] + "/";
      SegmentsIgnoreLastSlash(s[i..]);
    }
  }

  /** The slash that splitting takes off, or puts in for an empty rest, makes no difference. */
  lemma SegmentsOfRest(rest: string)
    ensures Segments(if rest == "" || rest == "/" then "/" else TrimSuffix(rest)) == Segments(rest)
  {
    if rest == "" || rest == "/" {
      assert "/"[1..] == "";
    } else if EndsWithSlash(rest) {
      assert rest == rest[..|rest| - 1] + "/";
      SegmentsIgnoreLastSlash(rest[..|rest| - 1]);
    }
  }

  /** A path means the same with and without the slash in front. */
  lemma SplitIgnoresFirstSlash(path: string)
    requires !StartsWithSlash(path)
    ensures SplitAbsolutePath("/" + path) == SplitAbsolutePath(path)
  {
    assert ("/" + path)[1..] == path;
  }

  /** The path string of a list of names. */
  function PathOf(names: seq<string>): string {
    if names == [] then "" else PathOf(names[..|names| - 1]) + "/" + names[|names| - 1]
  }

  /** The elements of a path are the names that it was made of. */
  lemma {:induction false} SegmentsOfPath(names: seq<string>)
    requires forall n | n in names :: IsName(n)
    ensures Segments(PathOf(names)) == names
    decreases |names|
  {
    if names != [] {
      SegmentsOfPath(names[..|names| - 1]);
      SegmentsOfChild(PathOf(names[..|names| - 1]), names[|names| - 1]);
    }
  }

  lemma SplitAfterSpace(path: string, space: string, rest: string)
    requires IsName(space) && TrimPrefix(path) == space + rest
    requires StartsWithSlash(rest) && !EndsWithSlash(rest)
    ensures SplitAbsolutePath(path) == (space, rest)
  {
    SlashAfterName(space, rest);
    assert (space + rest)[..|space|] == space && (space + rest)[|space|..] == rest;
    SplitShape(path);
  }

  lemma ChildString(t: string, i: nat, name: string)
    requires i <= |t| && IsName(name) && (i < |t| ==> t[i] == '/')
    ensures t + "/" + name == t[..i] + (t[i..] + "/" + name)
    ensures StartsWithSlash(t[i..] + "/" + name) && !EndsWithSlash(t[i..] + "/" + name)
  {
    assert t == t[..i] + t[i..];
    assert (t[i..] + "/" + name)[|t| - i + |name|] == name[|name| - 1];
  }

  lemma ChildSplits(path: string, name: string, t: string, i: nat)
    requires IsName(name) && t == TrimPrefix(path) && 0 < i == Slash(t)
    ensures SplitAbsolutePath(path + "/" + name) == (t[..i], t[i..] + "/" + name)
  {
    ChildString(t, i, name);
    var child := path + "/" + name;
    assert path != "" && child[0] == path[0];
    assert TrimPrefix(child) == t + "/" + name;
    SplitAfterSpace(child, t[..i], t[i..] + "/" + name);
  }

  /** The path of an entry of a directory is in the same space, one name further down. */
  lemma SplitOfChild(path: string, name: string)
    requires IsName(name) && SplitAbsolutePath(path).0 != ""
    ensures SplitAbsolutePath(path + "/" + name).0 == SplitAbsolutePath(path).0
    ensures Segments(SplitAbsolutePath(path + "/" + name).1) == Segments(SplitAbsolutePath(path).1) + [name]
  {
    var t := TrimPrefix(path);
    var i := Slash(t);
    assert SplitAbsolutePath(path) == (t[..i], if t[i..] == "" || t[i..] == "/" then "/" else TrimSuffix(t[i..])) by {
      SplitShape(path);
    }
    assert SplitAbsolutePath(path + "/" + name) == (t[..i], t[i..] + "/" + name) by {
      ChildSplits(path, name, t, i);
    }
    assert Segments(t[i..] + "/" + name) == Segments(t[i..]) + [name] by { SegmentsOfChild(t[i..], name); }
    SegmentsOfRest(t[i..]);
  }
}
