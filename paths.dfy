/**
  A simplified model of Go's path/filepath on '/'-separated paths.
  Base, Dir and Join split and glue at the last '/'; Go's lexical
  cleaning (collapsing "//", "." and ".." elements) is not modelled.
 */
module FilePaths {

  /** Index of the last '/' in p, or -1 when p has none. */
  function LastSlash(p: string): (i: int)
    ensures -1 <= i < |p|
    ensures i >= 0 ==> p[i] == '/'
    ensures forall j :: i < j < |p| ==> p[j] != '/'
    decreases |p|
  {
    if |p| == 0 then -1
    else if p[|p| - 1] == '/' then |p| - 1
    else LastSlash(p[..|p| - 1])
  }

  /** b is the last element of p: the '/'-free text that either is all of p
      or follows a '/' of p. */
  predicate IsLastElement(p: string, b: string)
  {
    && '/' !in b
    && |b| <= |p| && b == p[|p| - |b|..]
    && (|b| == |p| || p[|p| - |b| - 1] == '/')
  }

  /** filepath.Base: the last element of p, the text after its last '/'. */
  function Base(p: string): (b: string)
    ensures IsLastElement(p, b)
    ensures '/' !in p ==> b == p
  {
    var i := LastSlash(p);
    var b := p[i + 1..];
    assert forall k :: 0 <= k < |b| ==> b[k] != '/' by {
      forall k | 0 <= k < |b| ensures b[k] != '/' { assert b[k] == p[i + 1 + k]; }
    }
    b
  }

  /** A path has exactly one last element, so Base's contract determines it. */
  lemma LastElementUnique(p: string, b: string, c: string)
    requires IsLastElement(p, b) && IsLastElement(p, c)
    ensures b == c
  {
  }

  /** filepath.Dir: what precedes the last '/' ("/" when that is the only
      one at the front), or "." when p has no '/'. */
  function Dir(p: string): (d: string)
    ensures '/' !in p ==> d == "."
    ensures LastSlash(p) == 0 ==> d == "/" && p == d + Base(p)
    ensures LastSlash(p) > 0 ==> p == d + "/" + Base(p)
  {
    var i := LastSlash(p);
    if i < 0 then "."
    else if i == 0 then "/"
    else
      assert p == p[..i] + [p[i]] + p[i + 1..];
      p[..i]
  }

  /** filepath.Join of a directory and one more element. */
  function Join(dir: string, name: string): (p: string)
    ensures dir == "" || dir == "." ==> p == name
    ensures dir != "" && dir != "." ==> dir <= p
    ensures |name| <= |p| && p[|p| - |name|..] == name
    ensures dir != "" && dir != "." ==>
      |p| > |name| && p[|p| - |name| - 1] == '/' && |p| <= |dir| + 1 + |name|
  {
    if dir == "" || dir == "." then name
    else if dir[|dir| - 1] == '/' then dir + name
    else dir + "/" + name
  }

  /** A name without '/' is the Base of any path it is joined onto. */
  lemma BaseOfJoin(dir: string, name: string)
    requires '/' !in name
    ensures Base(Join(dir, name)) == name
  {
    var p := Join(dir, name);
    if dir == "" || dir == "." {
    } else {
      var front := |p| - |name|;
      assert p[front - 1] == '/';
      assert p[front..] == name;
      assert forall j :: front <= j < |p| ==> p[j] == name[j - front];
      assert LastSlash(p) == front - 1;
    }
  }
}
