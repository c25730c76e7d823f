/** nunoc_cosmos.clean_name: re.sub('^.*@', '', name).  The pattern is
    anchored at the start, so at most one substitution happens; '.' does
    not match a newline, so the greedy match ends at the last '@' of the
    first line. */
module NunocCosmos {

  /** Position of the first newline, or |s|. */
  function LineEnd(s: string): (n: nat)
    ensures n <= |s|
    ensures n < |s| ==> s[n] == '\n'
    ensures forall i :: 0 <= i < n ==> s[i] != '\n'
  {
    if s == [] || s[0] == '\n' then 0 else 1 + LineEnd(s[1..])
  }

  /** Position of the last '@' in s, or -1 when there is none. */
  function LastAt(s: string): (j: int)
    ensures -1 <= j < |s|
    ensures j >= 0 ==> s[j] == '@'
    ensures forall i :: j < i < |s| ==> s[i] != '@'
  {
    if s == [] then -1
    else if s[|s| - 1] == '@' then |s| - 1
    else LastAt(s[..|s| - 1])
  }

  /** clean_name(name). */
  function CleanName(name: string): string {
    var j := LastAt(name[..LineEnd(name)]);
    if j < 0 then name else name[j + 1..]
  }

  /** The result is a suffix of the name; a name whose first line has no
      '@' is returned unchanged; otherwise the name is cut just after an
      '@' of its first line, and no '@' is left on the result's first
      line. */
  lemma CleanNameSpec(name: string)
    ensures var r := CleanName(name);
      && |r| <= |name| && r == name[|name| - |r|..]
      && ((forall i :: 0 <= i < |name| ==> name[i] != '@') ==> r == name)
      && (r != name ==> name[|name| - |r| - 1] == '@')
      && (forall i :: 0 <= i < LineEnd(r) ==> r[i] != '@')
  {
    CleanNameCut(name);
    CleanNameFirstLine(name);
  }

  /** The cut the substitution makes: nothing, or everything up to and
      including the last '@' of the first line. */
  lemma CleanNameCut(name: string)
    ensures var r := CleanName(name);
      && |r| <= |name| && r == name[|name| - |r|..]
      && ((forall i :: 0 <= i < |name| ==> name[i] != '@') ==> r == name)
      && (r != name ==> name[|name| - |r| - 1] == '@')
  {
    var n := LineEnd(name);
    var j := LastAt(name[..n]);
    if j >= 0 {
      assert name[..n][j] == name[j];
      CutAfterAt(name, j);
    }
  }

  /** Cutting after an '@' at j leaves a proper suffix preceded by it. */
  lemma CutAfterAt(name: string, j: nat)
    requires j < |name| && name[j] == '@'
    ensures var r := name[j + 1..];
      |r| < |name| && r == name[|name| - |r|..] && name[|name| - |r| - 1] == '@'
  {
  }

  /** No '@' is left on the result's first line. */
  lemma CleanNameFirstLine(name: string)
    ensures var r := CleanName(name);
      forall i :: 0 <= i < LineEnd(r) ==> r[i] != '@'
  {
    var n := LineEnd(name);
    var j := LastAt(name[..n]);
    if j >= 0 {
      assert CleanName(name) == name[j + 1..];
      NoAtAfterCut(name, name[..n], j, name[j + 1..]);
    } else {
      assert CleanName(name) == name;
      NoAtAfterCut(name, name[..n], -1, name);
    }
  }

  /** Cutting just after the last '@' of the first line t (or nowhere,
      when j is -1) leaves no '@' on the first line. */
  lemma NoAtAfterCut(name: string, t: string, j: int, r: string)
    requires t == name[..LineEnd(name)] && -1 <= j < |t| && r == name[j + 1..]
    requires forall i :: j < i < |t| ==> t[i] != '@'
    ensures forall i :: 0 <= i < LineEnd(r) ==> r[i] != '@'
  {
    LineEndAfter(name, j + 1);
    forall i | 0 <= i < LineEnd(r) ensures r[i] != '@' {
      assert r[i] == t[j + 1 + i];
    }
  }

  /** Cutting inside the first line moves the first newline with it. */
  lemma LineEndAfter(s: string, k: nat)
    requires k <= LineEnd(s)
    ensures LineEnd(s[k..]) == LineEnd(s) - k
  {
    var t := s[k..];
    assert forall i :: 0 <= i < |t| ==> t[i] == s[k + i];
    LineEndIs(t, LineEnd(s) - k);
  }

  lemma {:induction false} LineEndIs(s: string, n: nat)
    requires n <= |s| && (n < |s| ==> s[n] == '\n')
    requires forall i :: 0 <= i < n ==> s[i] != '\n'
    ensures LineEnd(s) == n
    decreases n
  {
    if n > 0 {
      assert forall i :: 0 <= i < n - 1 ==> s[1..][i] == s[i + 1];
      LineEndIs(s[1..], n - 1);
    }
  }

  /** For a single-line name with an '@', the result is exactly what
      follows the last '@'. */
  lemma CleanNameSingleLine(name: string, j: nat)
    requires forall i :: 0 <= i < |name| ==> name[i] != '\n'
    requires j < |name| && name[j] == '@'
    requires forall i :: j < i < |name| ==> name[i] != '@'
    ensures CleanName(name) == name[j + 1..]
  {
    LineEndIs(name, |name|);
    assert name[..|name|] == name;
    LastAtIs(name, j);
  }

  lemma {:induction false} LastAtIs(s: string, j: nat)
    requires j < |s| && s[j] == '@'
    requires forall i :: j < i < |s| ==> s[i] != '@'
    ensures LastAt(s) == j
    decreases |s|
  {
    if j < |s| - 1 {
      var init := s[..|s| - 1];
      assert init[j] == s[j];
      assert forall i :: j < i < |init| ==> init[i] == s[i];
      LastAtIs(init, j);
    }
  }

  /** Cleaning a clean name changes nothing. */
  lemma CleanNameIdempotent(name: string)
    ensures CleanName(CleanName(name)) == CleanName(name)
  {
    var r := CleanName(name);
    CleanNameSpec(name);
    var n := LineEnd(r);
    assert forall i :: 0 <= i < n ==> r[..n][i] == r[i];
  }
}
