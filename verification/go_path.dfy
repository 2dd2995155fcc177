/** The two pieces of Go's standard library that the scope runner uses to
    turn a configuration path into a scope id: `path.Base` (the last element
    of a slash-separated path) and, from package `strings`, `HasSuffix`.
    Both live here because `Run` uses them together on the same path. */
module GoPath {

  predicate NoSlash(s: string) {
    forall i :: 0 <= i < |s| ==> s[i] != '/'
  }

  predicate AllSlashes(s: string) {
    forall i :: 0 <= i < |s| ==> s[i] == '/'
  }

  /** `strings.HasSuffix`. */
  predicate HasSuffix(s: string, suffix: string) {
    |s| >= |suffix| && s[|s| - |suffix|..] == suffix
  }

  /** A string has a suffix exactly when it is some prefix followed by that
      suffix. */
  lemma HasSuffixIsConcat(s: string, suffix: string)
    ensures HasSuffix(s, suffix) <==> exists prefix: string :: prefix + suffix == s
  {
    if HasSuffix(s, suffix) {
      assert s[..|s| - |suffix|] + suffix == s;
    }
    if exists prefix: string :: prefix + suffix == s {
      var prefix: string :| prefix + suffix == s;
      assert s[|s| - |suffix|..] == suffix;
    }
  }

  /** The path with every trailing slash removed. */
  function TrimTrailingSlashes(p: string): (r: string)
    ensures r <= p
    ensures |r| == 0 || r[|r| - 1] != '/'
    ensures forall j :: |r| <= j < |p| ==> p[j] == '/'
    decreases |p|
  {
    if |p| > 0 && p[|p| - 1] == '/' then TrimTrailingSlashes(p[..|p| - 1]) else p
  }

  /** `strings.LastIndex(p, "/")`: the position of the last slash, or -1. */
  function LastSlash(p: string): (i: int)
    ensures -1 <= i < |p|
    ensures i >= 0 ==> p[i] == '/'
    ensures forall j :: i < j < |p| ==> p[j] != '/'
    decreases |p|
  {
    if |p| == 0 then -1
    else if p[|p| - 1] == '/' then |p| - 1
    else LastSlash(p[..|p| - 1])
  }

  /** `path.Base`: the last element of the path after trailing slashes are
      dropped; "." for the empty path and "/" for a path of slashes only. */
  function Base(p: string): (r: string)
    ensures p == "" ==> r == "."
    ensures p != "" && AllSlashes(p) ==> r == "/"
    ensures !AllSlashes(p) ==> |r| > 0 && NoSlash(r)
  {
    if p == "" then "."
    else
      var t := TrimTrailingSlashes(p);
      var i := LastSlash(t);
      if i + 1 == |t| then
        assert |t| == 0;
        assert AllSlashes(p) by {
          forall j | 0 <= j < |p|
            ensures p[j] == '/'
          {
          }
        }
        "/"
      else
        var name := t[i + 1..];
        assert NoSlash(name) by {
          forall k | 0 <= k < |name|
            ensures name[k] != '/'
          {
            assert name[k] == t[i + 1 + k];
          }
        }
        assert p[|t| - 1] == t[|t| - 1];
        name
  }

  /** Apart from "." and "/", a base is a path element. */
  lemma BaseIsElement(p: string)
    ensures Base(p) == "." || Base(p) == "/" || NoSlash(Base(p))
  {
  }

  /** Splitting a sequence and joining the parts gives it back. */
  lemma SplitJoin(s: string, k: nat)
    requires k <= |s|
    ensures s[..k] + s[k..] == s
  {
  }

  lemma {:induction false} TrimSlashesOf(t: string, slashes: string)
    requires |t| == 0 || t[|t| - 1] != '/'
    requires AllSlashes(slashes)
    ensures TrimTrailingSlashes(t + slashes) == t
    decreases |slashes|
  {
    if |slashes| > 0 {
      var n := |slashes| - 1;
      assert (t + slashes)[..|t + slashes| - 1] == t + slashes[..n];
      TrimSlashesOf(t, slashes[..n]);
    }
  }

  lemma {:induction false} LastSlashOf(dir: string, name: string)
    requires |dir| == 0 || dir[|dir| - 1] == '/'
    requires NoSlash(name)
    ensures LastSlash(dir + name) == |dir| - 1
    decreases |name|
  {
    if |name| > 0 {
      var n := |name| - 1;
      assert (dir + name)[..|dir + name| - 1] == dir + name[..n];
      LastSlashOf(dir, name[..n]);
    } else {
      assert dir + name == dir;
    }
  }

  /** A path built from a directory part, one element and any number of
      trailing slashes has that element as its base. */
  lemma BaseOfParts(dir: string, name: string, slashes: string)
    requires |dir| == 0 || dir[|dir| - 1] == '/'
    requires |name| > 0 && NoSlash(name)
    requires AllSlashes(slashes)
    ensures Base(dir + name + slashes) == name
  {
    var t := dir + name;
    assert t[|t| - 1] == name[|name| - 1];
    TrimSlashesOf(t, slashes);
    LastSlashOf(dir, name);
    assert t[|dir|..] == name;
  }

  /** Where `Base` finds the element: after the last slash of the trimmed
      path, which then has characters past that slash. */
  lemma BaseInTrimmed(p: string)
    requires !AllSlashes(p)
    ensures |TrimTrailingSlashes(p)| > 0
    ensures LastSlash(TrimTrailingSlashes(p)) + 1 < |TrimTrailingSlashes(p)|
    ensures Base(p) == TrimTrailingSlashes(p)[LastSlash(TrimTrailingSlashes(p)) + 1..]
  {
  }

  /** Trimming keeps a prefix and drops only slashes. */
  lemma TrimmedSplit(p: string)
    ensures TrimTrailingSlashes(p) == p[..|TrimTrailingSlashes(p)|]
    ensures AllSlashes(p[|TrimTrailingSlashes(p)|..])
  {
    var t := TrimTrailingSlashes(p);
    var slashes := p[|t|..];
    forall k | 0 <= k < |slashes|
      ensures slashes[k] == '/'
    {
      assert slashes[k] == p[|t| + k];
    }
  }

  /** Conversely, every path with an element in it splits that way around
      its base. */
  lemma BaseParts(p: string) returns (dir: string, slashes: string)
    requires !AllSlashes(p)
    ensures p == dir + Base(p) + slashes
    ensures |dir| == 0 || dir[|dir| - 1] == '/'
    ensures AllSlashes(slashes)
  {
    var t := TrimTrailingSlashes(p);
    var i := LastSlash(t);
    BaseInTrimmed(p);
    TrimmedSplit(p);
    dir := t[..i + 1];
    slashes := p[|t|..];
    SplitJoin(t, i + 1);
    SplitJoin(p, |t|);
  }
}
