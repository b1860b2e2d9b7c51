/** The part of POSIX `os.path` that the pipeline relies on (`join`,
    `basename`, `dirname`) and Python's `str.replace`, on strings as
    sequences of characters. */
module Paths {

  const Sep: char := '/'

  /** `pat` occurs at the start of `s` (Python's `s.startswith(pat)`). */
  predicate StartsWith(s: string, pat: string) {
    |pat| <= |s| && s[..|pat|] == pat
  }

  /** `pat` occurs somewhere in `s` (Python's `pat in s`). */
  predicate Contains(s: string, pat: string)
    decreases |s|
  {
    StartsWith(s, pat) || (|s| > 0 && Contains(s[1..], pat))
  }

  /** No two consecutive separators: the shape of every path the lister builds. */
  predicate NoDoubleSep(p: string) {
    forall k :: 0 < k < |p| ==> !(p[k - 1] == Sep && p[k] == Sep)
  }

  predicate AllSeps(s: string) {
    forall k :: 0 <= k < |s| ==> s[k] == Sep
  }

  /** `os.path.join(a, b)`: an absolute `b` replaces `a`; otherwise a
      separator is inserted unless `a` is empty or already ends with one. */
  function Join(a: string, b: string): (r: string)
  {
    if |b| > 0 && b[0] == Sep then b
    else if a == [] || a[|a| - 1] == Sep then a + b
    else a + [Sep] + b
  }

  /** A joined path ends in the name that was joined. */
  lemma JoinEndsWith(a: string, b: string)
    ensures |b| <= |Join(a, b)| && Join(a, b)[|Join(a, b)| - |b|..] == b
  {
  }

  /** Index just past the last separator of `p` (0 when there is none):
      where `os.path.basename` begins. */
  function TailStart(p: string): (i: nat)
    ensures i <= |p|
    ensures i > 0 ==> p[i - 1] == Sep
    ensures forall k :: i <= k < |p| ==> p[k] != Sep
    decreases |p|
  {
    if p == [] then 0
    else if p[|p| - 1] == Sep then |p|
    else TailStart(p[..|p| - 1])
  }

  /** `os.path.basename(p)`: everything after the last separator. */
  function Basename(p: string): (r: string)
    ensures Sep !in r
    ensures |r| <= |p| && r == p[|p| - |r|..]
  {
    p[TailStart(p)..]
  }

  /** `rstrip('/')`. */
  function TrimTrailingSeps(s: string): (r: string)
    ensures |r| <= |s| && r == s[..|r|]
    ensures r == [] || r[|r| - 1] != Sep
    decreases |s|
  {
    if s != [] && s[|s| - 1] == Sep then TrimTrailingSeps(s[..|s| - 1]) else s
  }

  /** `os.path.dirname(p)`: everything up to the last separator, with the
      trailing separators removed unless the head consists only of them. */
  function Dirname(p: string): string {
    var head := p[..TailStart(p)];
    if head != [] && !AllSeps(head) then TrimTrailingSeps(head) else head
  }

  /** Python's `s.replace(pat, rep)`: every non-overlapping occurrence of
      `pat`, scanning from the left, becomes `rep`. The pipeline only ever
      replaces non-empty patterns. */
  function Replace(s: string, pat: string, rep: string): string
    requires pat != []
    decreases |s|
  {
    if |s| < |pat| then s
    else if s[..|pat|] == pat then rep + Replace(s[|pat|..], pat, rep)
    else [s[0]] + Replace(s[1..], pat, rep)
  }

  lemma {:induction false} ShortNeverContains(s: string, pat: string)
    requires |s| < |pat|
    ensures !Contains(s, pat)
    decreases |s|
  {
    if |s| > 0 {
      ShortNeverContains(s[1..], pat);
    }
  }

  /** A string without the pattern is left exactly as it was. */
  lemma {:induction false} ReplaceAbsent(s: string, pat: string, rep: string)
    requires pat != [] && !Contains(s, pat)
    ensures Replace(s, pat, rep) == s
    decreases |s|
  {
    if |s| >= |pat| {
      assert !StartsWith(s, pat);
      ReplaceAbsent(s[1..], pat, rep);
      assert s == [s[0]] + s[1..];
    }
  }

  /** Replacing by something at least as long never shortens the string,
      and by something strictly longer lengthens every string that holds
      the pattern: so such a string is never left unchanged. */
  lemma {:induction false} ReplaceLength(s: string, pat: string, rep: string)
    requires pat != [] && |rep| >= |pat|
    ensures |Replace(s, pat, rep)| >= |s|
    ensures Contains(s, pat) && |rep| > |pat| ==> |Replace(s, pat, rep)| > |s|
    decreases |s|
  {
    if |s| < |pat| {
      ShortNeverContains(s, pat);
    } else if s[..|pat|] == pat {
      ReplaceLength(s[|pat|..], pat, rep);
    } else {
      assert !StartsWith(s, pat);
      ReplaceLength(s[1..], pat, rep);
    }
  }

  /** A character found neither in the string nor in the replacement is
      not in the result. */
  lemma {:induction false} ReplaceAvoids(s: string, pat: string, rep: string, c: char)
    requires pat != [] && c !in s && c !in rep
    ensures c !in Replace(s, pat, rep)
    decreases |s|
  {
    if |s| >= |pat| {
      if s[..|pat|] == pat {
        assert forall k :: |pat| <= k < |s| ==> s[k] in s;
        assert c !in s[|pat|..];
        ReplaceAvoids(s[|pat|..], pat, rep, c);
      } else {
        assert c !in s[1..];
        ReplaceAvoids(s[1..], pat, rep, c);
      }
    }
  }

  /** A string that lacks the pattern's first character does not hold it. */
  lemma {:induction false} AbsentHeadNeverContains(s: string, pat: string)
    requires pat != [] && pat[0] !in s
    ensures !Contains(s, pat)
    decreases |s|
  {
    if |s| > 0 {
      assert s[0] != pat[0];
      assert pat[0] !in s[1..] by {
        assert forall c :: c in s[1..] ==> c in s;
      }
      AbsentHeadNeverContains(s[1..], pat);
    }
  }

  /** The pattern's first character occurs nowhere else in it, as the dot
      of `.csv` and of `.parquet`. */
  predicate HeadUnique(pat: string) {
    forall k :: 0 < k < |pat| ==> pat[k] != pat[0]
  }

  /** No occurrence of the pattern starts at the head of a non-empty name
      followed by the pattern, under the conditions of `ReplaceTrailing`. */
  lemma NoMatchAtHead(a: string, pat: string)
    requires pat != [] && a != []
    requires pat[0] !in a || (!Contains(a, pat) && HeadUnique(pat))
    ensures (a + pat)[..|pat|] != pat
  {
    var s := a + pat;
    if pat[0] !in a {
      assert s[..|pat|][0] == a[0];
    } else if |a| >= |pat| {
      assert s[..|pat|] == a[..|pat|];
      assert !StartsWith(a, pat);
    } else {
      assert s[..|pat|][|a|] == pat[0];
      assert pat[|a|] != pat[0];
    }
  }

  /** The conditions of `ReplaceTrailing` hold of a name's tail too. */
  lemma TrailingTail(a: string, pat: string)
    requires pat != [] && a != []
    requires pat[0] !in a || (!Contains(a, pat) && HeadUnique(pat))
    ensures pat[0] !in a[1..] || (!Contains(a[1..], pat) && HeadUnique(pat))
  {
    assert forall c :: c in a[1..] ==> c in a;
  }

  /** A name followed by the pattern has just that one occurrence replaced,
      provided no occurrence can start inside the name: the name lacks the
      pattern's first character, or it lacks the pattern and the pattern's
      first character occurs only at its head. */
  lemma {:induction false} ReplaceTrailing(a: string, pat: string, rep: string)
    requires pat != []
    requires pat[0] !in a || (!Contains(a, pat) && HeadUnique(pat))
    ensures Replace(a + pat, pat, rep) == a + rep
    decreases |a|
  {
    var s := a + pat;
    if a == [] {
      assert s == pat && s[..|pat|] == pat && s[|pat|..] == [];
    } else {
      NoMatchAtHead(a, pat);
      TrailingTail(a, pat);
      ReplaceTrailing(a[1..], pat, rep);
      assert s[1..] == a[1..] + pat;
      assert Replace(s, pat, rep) == [s[0]] + Replace(s[1..], pat, rep);
      assert a == [a[0]] + a[1..];
    }
  }

  /** Splitting a path into directory and base name and joining them again
      gives the path back, as long as it holds no doubled separator. */
  lemma JoinDirnameBasename(p: string)
    requires NoDoubleSep(p)
    ensures Join(Dirname(p), Basename(p)) == p
  {
    var i := TailStart(p);
    var b := Basename(p);
    assert b == p[i..];
    assert |b| > 0 ==> b[0] != Sep;
    if i == 0 {
      assert Dirname(p) == [];
    } else if i == 1 {
      assert p[..1] == [Sep];
      assert AllSeps(p[..1]);
      assert Dirname(p) == [Sep];
      assert p == [Sep] + p[1..];
    } else {
      assert p[i - 1] == Sep;
      assert p[i - 2] != Sep;
      var head := p[..i];
      assert head[i - 2] != Sep;
      assert !AllSeps(head);
      assert head[..|head| - 1] == p[..i - 1];
      assert TrimTrailingSeps(head) == TrimTrailingSeps(p[..i - 1]);
      assert TrimTrailingSeps(p[..i - 1]) == p[..i - 1];
      assert p == p[..i - 1] + [Sep] + p[i..];
    }
  }

  lemma TailStartAfter(a: string, name: string)
    requires a == [] || a[|a| - 1] == Sep
    requires Sep !in name
    ensures TailStart(a + name) == |a|
  {
    var p := a + name;
    var i := TailStart(p);
    if a != [] {
      assert p[|a| - 1] == Sep;
    }
    assert forall k :: |a| <= k < |p| ==> p[k] == name[k - |a|];
  }

  /** The base name of a joined path is the name that was joined, when that
      name holds no separator. */
  lemma BasenameOfJoin(dir: string, name: string)
    requires Sep !in name
    ensures Basename(Join(dir, name)) == name
  {
    if name != [] {
      assert name[0] in name;
    }
    if dir == [] || dir[|dir| - 1] == Sep {
      TailStartAfter(dir, name);
      assert (dir + name)[|dir|..] == name;
    } else {
      TailStartAfter(dir + [Sep], name);
      assert dir + [Sep] + name == (dir + [Sep]) + name;
      assert ((dir + [Sep]) + name)[|dir| + 1..] == name;
    }
  }
}
