/**
 Model of `GitHub.tag_sha` in scripts/publish_verified_release.py (lines 78-86):
 an annotated tag names another object, which may be a tag again; the program
 follows such tags to a commit, but looks at no more than five objects.
 */
module TagPeel {
  import opened Common

  datatype GitObject = Commit(sha: string) | Tag(sha: string) | OtherObject

  /** What the API knows under an object name; `None` is a failing request. */
  type Objects = string -> Option<GitObject>

  /** Each object of the path, which starts at `first`, is a tag of the next one. */
  predicate Follows(objects: Objects, first: GitObject, path: seq<GitObject>) {
    && path != [] && path[0] == first
    && forall i :: 0 <= i < |path| - 1 ==> path[i].Tag? && objects(path[i].sha) == Some(path[i + 1])
  }

  /** The path ends at the commit `sha`. */
  predicate Resolves(objects: Objects, first: GitObject, path: seq<GitObject>, sha: string) {
    Follows(objects, first, path) && path[|path| - 1] == Commit(sha)
  }

  /** There is only one way to follow tags: every path is a prefix of one that ends in a commit. */
  lemma {:induction false} FollowedIsPrefix(objects: Objects, first: GitObject, followed: seq<GitObject>, path: seq<GitObject>, sha: string)
    requires Follows(objects, first, followed) && Resolves(objects, first, path, sha)
    ensures followed <= path
    decreases |followed|
  {
    if |followed| > 1 {
      var init := followed[..|followed| - 1];
      FollowedIsPrefix(objects, first, init, path, sha);
      var last := |init| - 1;
      assert path[last] == init[last] == followed[last] && followed[last].Tag?;
      assert objects(path[last].sha) == Some(path[last + 1]);
      assert followed == init + [followed[|followed| - 1]];
    }
  }

  /** The commit is found iff a path of at most five objects leads to it. */
  method TagSha(reference: Option<GitObject>, objects: Objects) returns (r: Option<string>)
    ensures forall sha :: r == Some(sha) <==>
      reference.Some? && exists path :: Resolves(objects, reference.value, path, sha) && |path| <= 5
  {
    if reference.None? { return None; }
    var first := reference.value;
    var current := first;
    ghost var followed := [first];
    var i := 0;
    while i < 5
      invariant i <= 5 && |followed| == i + 1
      invariant Follows(objects, first, followed) && followed[i] == current
    {
      forall path: seq<GitObject>, sha | Resolves(objects, first, path, sha) ensures followed <= path {
        FollowedIsPrefix(objects, first, followed, path, sha);
      }
      if current.Commit? {
        assert Resolves(objects, first, followed, current.sha);
        return Some(current.sha);
      }
      if !current.Tag? { break; }
      var next := objects(current.sha);
      if next.None? { break; }
      followed := followed + [next.value];
      current := next.value;
      i := i + 1;
    }
    forall path: seq<GitObject>, sha | Resolves(objects, first, path, sha) ensures |path| > 5 {
      FollowedIsPrefix(objects, first, followed, path, sha);
      assert path[i] == followed[i] == current;
      assert i < |path| - 1 ==> path[i].Tag? && objects(path[i].sha) == Some(path[i + 1]);
    }
    r := None;
  }
}
