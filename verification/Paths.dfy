/** Splitting a path forward, as lookups do, and backward, as creation does. */
module Paths {

  const SLASH: char := '/'

  /** No slash except possibly at the very end. */
  predicate IsLastLevel(path: string) {
    forall i :: 0 <= i < |path| - 1 ==> path[i] != SLASH
  }

  function FirstSlash(path: string): (k: nat)
    requires SLASH in path
    ensures k < |path| && path[k] == SLASH && forall i :: 0 <= i < k ==> path[i] != SLASH
  {
    if path[0] == SLASH then 0 else FirstSlash(path[1..]) + 1
  }

  function TopDir(path: string): (d: string)
    requires SLASH in path
  {
    path[..FirstSlash(path) + 1]
  }

  function BelowTop(path: string): (rest: string)
    requires SLASH in path
    ensures |rest| < |path| && TopDir(path) + rest == path
  {
    path[FirstSlash(path) + 1..]
  }

  /** The directory names in front of the last one, each with its slash. */
  function Dirs(path: string): (ds: seq<string>)
    decreases |path|
  {
    if IsLastLevel(path) then [] else [TopDir(path)] + Dirs(BelowTop(path))
  }

  function LastName(path: string): (name: string)
    decreases |path|
  {
    if IsLastLevel(path) then path else LastName(BelowTop(path))
  }

  function Join(ds: seq<string>, last: string): string {
    if ds == [] then last else ds[0] + Join(ds[1..], last)
  }

  /** A directory component: one slash, at its end. */
  predicate IsDirName(d: string) {
    |d| > 0 && d[|d| - 1] == SLASH && IsLastLevel(d)
  }

  /** One turn of peeling. */
  lemma SplitOne(path: string)
    ensures IsLastLevel(path) ==> Dirs(path) == [] && LastName(path) == path
    ensures !IsLastLevel(path) ==> SLASH in path && |BelowTop(path)| < |path|
    ensures !IsLastLevel(path) ==> Dirs(path) == [TopDir(path)] + Dirs(BelowTop(path))
    ensures !IsLastLevel(path) ==> LastName(path) == LastName(BelowTop(path))
  {
  }

  lemma TopIsDir(path: string)
    requires SLASH in path
    ensures IsDirName(TopDir(path))
  {
  }

  /** Peeling loses nothing: the components put together are the path, and are split where the slashes are. */
  lemma {:induction false} SplitJoin(path: string)
    ensures Join(Dirs(path), LastName(path)) == path
    ensures IsLastLevel(LastName(path)) && forall i :: 0 <= i < |Dirs(path)| ==> IsDirName(Dirs(path)[i])
    decreases |path|
  {
    if !IsLastLevel(path) {
      var rest := BelowTop(path);
      SplitJoin(rest);
      TopIsDir(path);
      assert Dirs(path) == [TopDir(path)] + Dirs(rest) && LastName(path) == LastName(rest);
      hide IsLastLevel, IsDirName, Dirs, LastName, TopDir, BelowTop;
      assert Dirs(path)[1..] == Dirs(rest);
    }
  }

  /** Start of what stands behind the last slash among the first i characters. */
  function Cut(path: string, i: nat): (k: nat)
    requires i <= |path|
    ensures k <= i && (k > 0 ==> path[k - 1] == SLASH) && forall j :: k <= j < i ==> path[j] != SLASH
  {
    if i == 0 then 0 else if path[i - 1] == SLASH then i else Cut(path, i - 1)
  }

  /** The suffix behind the last slash that is not the final character. */
  function LastLevelName(path: string): (name: string) {
    if path == [] then [] else path[Cut(path, |path| - 1)..]
  }

  /** A suffix is the last-level name when it starts behind a slash, or at 0, and has no inner slash. */
  lemma CutUnique(path: string, k: nat)
    requires k < |path| && (k > 0 ==> path[k - 1] == SLASH) && IsLastLevel(path[k..])
    ensures LastLevelName(path) == path[k..]
  {
    var c := Cut(path, |path| - 1);
    assert forall j :: k <= j < |path| - 1 ==> path[j] == path[k..][j - k];
  }

  lemma LevelOfSuffix(path: string, k: nat)
    requires 0 < k < |path| && path[k - 1] == SLASH
    ensures LastLevelName(path) == LastLevelName(path[k..])
  {
    var rest := path[k..];
    var c := Cut(rest, |rest| - 1);
    assert path[k + c..] == rest[c..];
    assert path[k + c - 1] == SLASH by {
      assert c > 0 ==> path[k + c - 1] == rest[c - 1];
    }
    CutUnique(path, k + c);
  }

  /** Forward peeling ends with exactly what the backward search finds. */
  lemma {:induction false} ForwardIsBackward(path: string)
    ensures LastName(path) == LastLevelName(path)
    decreases |path|
  {
    if path == [] {
    } else if IsLastLevel(path) {
      assert path[0..] == path;
      CutUnique(path, 0);
    } else {
      ForwardIsBackward(BelowTop(path));
      LevelOfSuffix(path, FirstSlash(path) + 1);
    }
  }

  /**
   Lookups drop the leading directory before they peel, creation does not: the two agree on the last
   name exactly when the path has a slash before its final character.
   */
  lemma PathsAgree(path: string)
    requires SLASH in path
    ensures LastName(BelowTop(path)) == LastLevelName(path) <==> !IsLastLevel(path)
  {
    ForwardIsBackward(path);
    SplitJoin(BelowTop(path));
    if IsLastLevel(path) {
      assert BelowTop(path) == [] && |LastLevelName(path)| > 0;
    }
  }

  // ---------------------------------------------------------------- the loops

  method LastLevel(path: string) returns (r: bool)
    ensures r == IsLastLevel(path)
  {
    var i, cont := 0, 0;
    while i < |path|
      invariant 0 <= i <= |path| && cont >= 0
      invariant cont == 0 <==> forall j :: 0 <= j < i && j < |path| - 1 ==> path[j] != SLASH
    {
      if path[i] == SLASH && i != |path| - 1 {
        cont := cont + 1;
      }
      i := i + 1;
    }
    return cont == 0;
  }

  method GetLastLevelName(abspath: string) returns (name: string)
    ensures name == LastLevelName(abspath)
  {
    var len := |abspath|;
    var offset := 0;
    var i := len - 1;
    while i >= 0
      invariant -1 <= i < len
      invariant offset == 0 && (len > 0 ==> Cut(abspath, len - 1) == Cut(abspath, if i == len - 1 then i else i + 1))
    {
      if i != len - 1 {
        if abspath[i] == SLASH {
          offset := i + 1;
          break;
        }
      }
      i := i - 1;
    }
    return abspath[offset..];
  }
}
