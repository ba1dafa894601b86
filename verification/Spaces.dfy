/** Resolving the first element of a path to a storage space. */
module Spaces {
  import opened Options
  import opened Paths

  datatype Space = Space(id: string, name: string)

  /** The first space with that name. */
  function FirstNamed(name: string, spaces: seq<Space>): Option<Space> {
    if spaces == [] then None
    else if spaces[0].name == name then Some(spaces[0])
    else FirstNamed(name, spaces[1..])
  }

  lemma {:induction false} FirstNamedIsFirst(name: string, spaces: seq<Space>, k: nat)
    requires k < |spaces| && spaces[k].name == name && forall j | 0 <= j < k :: spaces[j].name != name
    ensures FirstNamed(name, spaces) == Some(spaces[k])
    decreases |spaces|
  {
    if 0 < k {
      assert spaces[0].name != name;
      FirstNamedIsFirst(name, spaces[1..], k - 1);
    }
  }

  lemma {:induction false} FirstNamedSkips(name: string, spaces: seq<Space>, k: nat)
    requires k <= |spaces| && forall j | 0 <= j < k :: spaces[j].name != name
    ensures FirstNamed(name, spaces) == FirstNamed(name, spaces[k..])
    decreases k
  {
    if 0 < k {
      assert spaces[0].name != name;
      FirstNamedSkips(name, spaces[1..], k - 1);
      assert spaces[1..][k - 1..] == spaces[k..];
    }
  }

  method FindSpaceForPath(path: string, spaces: seq<Space>) returns (space: Option<Space>, relPath: string)
    ensures space == FirstNamed(SplitAbsolutePath(path).0, spaces)
    ensures relPath == if space.Some? then SplitAbsolutePath(path).1 else ""
  {
    var (spaceName, rest) := SplitAbsolutePath(path);
    for k := 0 to |spaces|
      invariant forall j | 0 <= j < k :: spaces[j].name != spaceName
    {
      if spaces[k].name == spaceName {
        FirstNamedIsFirst(spaceName, spaces, k);
        return Some(spaces[k]), rest;
      }
    }
    FirstNamedSkips(spaceName, spaces, |spaces|);
    return None, "";
  }

  lemma {:induction false} FirstNamedHasName(name: string, spaces: seq<Space>)
    ensures FirstNamed(name, spaces).Some? ==> FirstNamed(name, spaces).value.name == name
    decreases |spaces|
  {
    if spaces != [] && spaces[0].name != name {
      FirstNamedHasName(name, spaces[1..]);
    }
  }

  /** The path of a space leads back to its name if and only if the name has no slash; the empty name is no
      exception. */
  lemma SpaceNameOfJoin(name: string, rest: string)
    requires StartsWithSlash(rest)
    ensures SplitAbsolutePath(Join(name, rest)).0 == name <==> '/' !in name
  {
    if name == "" {
      assert TrimPrefix(Join(name, rest)) == rest;
      NamesNoSpace(Join(name, rest));
    } else if '/' !in name {
      SplitOfJoin(name, rest);
    } else {
      NamesNoSpace(Join(name, rest));
    }
  }

  /** A space is found again under its own name if and only if the name has no slash and no earlier space has it: with
      distinct, slash-free names that is every entry of the root listing. For a name that is not empty so is the path
      that is just the name. */
  lemma SpaceIsFound(spaces: seq<Space>, i: nat, rest: string)
    requires i < |spaces| && forall j, k | 0 <= j < |spaces| && 0 <= k < |spaces| && spaces[j] == spaces[k] :: j == k
    requires StartsWithSlash(rest)
    ensures FirstNamed(SplitAbsolutePath(Join(spaces[i].name, rest)).0, spaces) == Some(spaces[i])
            <==> '/' !in spaces[i].name && forall j | 0 <= j < i :: spaces[j].name != spaces[i].name
    ensures IsName(spaces[i].name) ==> SplitAbsolutePath("/" + spaces[i].name) == (spaces[i].name, "/")
  {
    var name := spaces[i].name;
    SpaceNameOfJoin(name, rest);
    FirstNamedHasName(SplitAbsolutePath(Join(name, rest)).0, spaces);
    if IsName(name) { SplitOfJoin(name, rest); }
    if forall j | 0 <= j < i :: spaces[j].name != name {
      FirstNamedIsFirst(name, spaces, i);
    } else {
      var j := EarliestNamed(spaces, i);
      FirstNamedIsFirst(name, spaces, j);
    }
  }

  lemma {:induction false} EarliestNamed(spaces: seq<Space>, i: nat) returns (j: nat)
    requires i < |spaces|
    ensures j <= i && spaces[j].name == spaces[i].name && forall l | 0 <= l < j :: spaces[l].name != spaces[i].name
    decreases i
  {
    j := i;
    if k: nat :| k < i && spaces[k].name == spaces[i].name {
      j := EarliestNamed(spaces, k);
    }
  }
}
