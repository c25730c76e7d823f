/** The Python string operations the producers rely on (str.strip, str.split,
    str.join, str.replace, str.lower, `in`, startswith/endswith, slicing),
    written out over `string` together with the facts the producers need. */
module Strs {

  /** Python's ASCII whitespace: space, \t, \n, \v, \f and \r. */
  predicate IsSpace(c: char) {
    c == ' ' || ('\t' <= c <= '\r')
  }

  predicate NoSpace(s: string) {
    forall i :: 0 <= i < |s| ==> !IsSpace(s[i])
  }

  predicate StartsWith(s: string, p: string) {
    |p| <= |s| && s[..|p|] == p
  }

  predicate EndsWith(s: string, p: string) {
    |p| <= |s| && s[|s| - |p|..] == p
  }

  /** `p in s` for two strings: p occurs somewhere in s. */
  predicate Contains(s: string, p: string)
    decreases |s|
  {
    StartsWith(s, p) || (s != [] && Contains(s[1..], p))
  }

  /** A string starts with each of its prefixes. */
  lemma PrefixOf(p: string, rest: string)
    ensures StartsWith(p + rest, p)
  {
    assert (p + rest)[..|p|] == p;
  }

  /** A string starts with the first piece of a concatenation. */
  lemma PrefixOf2(p: string, a: string, b: string)
    ensures StartsWith(p + a + b, p)
  {
    assert (p + a + b)[..|p|] == p;
  }

  /** A prefix of a prefix is a prefix. */
  lemma PrefixTrans(s: string, p: string, q: string)
    requires StartsWith(s, p) && StartsWith(p, q)
    ensures StartsWith(s, q)
  {
    assert s[..|q|] == s[..|p|][..|q|];
  }

  /** A string that differs from p at a position of both does not start
      with p. */
  lemma NotPrefixAt(s: string, p: string, i: nat)
    requires i < |p| && i < |s| && s[i] != p[i]
    ensures !StartsWith(s, p)
  {
    if |p| <= |s| {
      assert s[..|p|][i] == s[i];
    }
  }

  /** p occurs in s starting at position i. */
  predicate OccursAt(s: string, p: string, i: int) {
    0 <= i <= |s| - |p| && s[i..i + |p|] == p
  }

  /** Contains by its position-based definition. */
  lemma {:induction false} ContainsAt(s: string, p: string)
    ensures Contains(s, p) <==> exists i :: OccursAt(s, p, i)
    decreases |s|
  {
    if StartsWith(s, p) {
      assert OccursAt(s, p, 0);
    } else if s == [] {
    } else {
      ContainsAt(s[1..], p);
      if exists i :: OccursAt(s, p, i) {
        var i :| OccursAt(s, p, i);
        assert i != 0;
        assert OccursAt(s[1..], p, i - 1);
      }
      if exists i :: OccursAt(s[1..], p, i) {
        var i :| OccursAt(s[1..], p, i);
        assert s[1..][i..i + |p|] == s[i + 1..i + 1 + |p|];
        assert OccursAt(s, p, i + 1);
      }
    }
  }

  // ---------------------------------------------------------------------
  // strip()

  function LStrip(s: string): (r: string)
    ensures |r| <= |s| && r == s[|s| - |r|..]
    ensures r != [] ==> !IsSpace(r[0])
    ensures forall i :: 0 <= i < |s| - |r| ==> IsSpace(s[i])
    decreases |s|
  {
    if s != [] && IsSpace(s[0]) then LStrip(s[1..]) else s
  }

  function RStrip(s: string): (r: string)
    ensures |r| <= |s| && r == s[..|r|]
    ensures r != [] ==> !IsSpace(r[|r| - 1])
    ensures forall i :: |r| <= i < |s| ==> IsSpace(s[i])
    decreases |s|
  {
    if s != [] && IsSpace(s[|s| - 1]) then RStrip(s[..|s| - 1]) else s
  }

  /** str.strip(): drop leading and trailing whitespace. */
  function Strip(s: string): (r: string)
    ensures r != [] ==> !IsSpace(r[0]) && !IsSpace(r[|r| - 1])
    ensures |r| <= |s|
  {
    RStrip(LStrip(s))
  }

  /** What strip() keeps is a piece of the string. */
  lemma StripOccurs(s: string)
    ensures exists i :: OccursAt(s, Strip(s), i)
  {
    var l := LStrip(s);
    assert OccursAt(s, Strip(s), |s| - |l|);
  }

  // ---------------------------------------------------------------------
  // split() without argument, join, normalize_whitespace

  /** Length of the maximal run of non-whitespace at the start of s. */
  function TokenLen(s: string): (n: nat)
    ensures n <= |s|
    ensures forall i :: 0 <= i < n ==> !IsSpace(s[i])
    ensures n < |s| ==> IsSpace(s[n])
  {
    if s == [] || IsSpace(s[0]) then 0 else 1 + TokenLen(s[1..])
  }

  /** str.split() with no argument: the maximal non-whitespace runs, in order. */
  function Split(s: string): (r: seq<string>)
    ensures forall k :: 0 <= k < |r| ==> r[k] != [] && NoSpace(r[k])
    decreases |s|
  {
    if s == [] then []
    else if IsSpace(s[0]) then Split(s[1..])
    else
      var n := TokenLen(s);
      [s[..n]] + Split(s[n..])
  }

  /** sep.join(parts). */
  function Join(parts: seq<string>, sep: string): string
  {
    if |parts| == 0 then ""
    else if |parts| == 1 then parts[0]
    else parts[0] + sep + Join(parts[1..], sep)
  }

  predicate Tokens(parts: seq<string>) {
    forall k :: 0 <= k < |parts| ==> parts[k] != [] && NoSpace(parts[k])
  }

  lemma {:induction false} TokenLenOf(p: string, rest: string)
    requires NoSpace(p)
    requires rest == [] || IsSpace(rest[0])
    ensures TokenLen(p + rest) == |p|
    decreases |p|
  {
    if p != [] {
      assert (p + rest)[1..] == p[1..] + rest;
      TokenLenOf(p[1..], rest);
    }
  }

  /** Splitting a space-joined list of tokens gives the tokens back. */
  lemma {:induction false} SplitJoin(parts: seq<string>)
    requires Tokens(parts)
    ensures Split(Join(parts, " ")) == parts
    decreases |parts|
  {
    if |parts| == 0 {
    } else if |parts| == 1 {
      var p := parts[0];
      TokenLenOf(p, "");
      assert p + "" == p;
      assert p[|p|..] == [];
      assert p[..|p|] == p;
    } else {
      var p := parts[0];
      var j := Join(parts[1..], " ");
      var s := p + " " + j;
      assert s == p + (" " + j);
      TokenLenOf(p, " " + j);
      assert s[..|p|] == p;
      assert s[|p|..] == " " + j;
      assert (" " + j)[1..] == j;
      SplitJoin(parts[1..]);
      assert Split(s) == [p] + Split(" " + j);
      assert parts == [parts[0]] + parts[1..];
    }
  }

  /** Text after the first token does not change the token's length, as
      long as the token ends inside s or the text starts with whitespace. */
  lemma {:induction false} TokenLenAppend(s: string, rest: string)
    requires TokenLen(s) < |s| || rest == [] || IsSpace(rest[0])
    ensures TokenLen(s + rest) == TokenLen(s)
    decreases |s|
  {
    if s != [] && !IsSpace(s[0]) {
      assert (s + rest)[1..] == s[1..] + rest;
      TokenLenAppend(s[1..], rest);
    }
  }

  /** A single token splits into itself. */
  lemma SplitOne(w: string)
    requires w != [] && NoSpace(w)
    ensures Split(w) == [w]
  {
    TokenLenOf(w, "");
    assert w + "" == w;
    assert w[..|w|] == w && w[|w|..] == [];
  }

  /** A token appended after a space is the last token split() finds. */
  lemma {:induction false} SplitSnoc(a: string, w: string)
    requires w != [] && NoSpace(w)
    ensures Split(a + " " + w) == Split(a) + [w]
    decreases |a|
  {
    var s := a + " " + w;
    if a == [] {
      assert s[1..] == w;
      SplitOne(w);
    } else if IsSpace(a[0]) {
      assert s[1..] == a[1..] + " " + w;
      SplitSnoc(a[1..], w);
    } else {
      var m := TokenLen(a);
      TokenLenAppend(a, " " + w);
      assert s == a + (" " + w);
      assert s[..m] == a[..m];
      assert s[m..] == a[m..] + " " + w;
      SplitSnoc(a[m..], w);
    }
  }

  /** A string in normal form: every whitespace character is a single ' '
      with a non-whitespace character on each side. */
  predicate WsNormal(s: string) {
    forall i :: 0 <= i < |s| && IsSpace(s[i]) ==>
      s[i] == ' ' && 0 < i < |s| - 1 && !IsSpace(s[i - 1]) && !IsSpace(s[i + 1])
  }

  lemma {:induction false} JoinTokens(parts: seq<string>)
    requires Tokens(parts)
    ensures WsNormal(Join(parts, " "))
    ensures |parts| > 0 ==> Join(parts, " ") != [] && Join(parts, " ")[0] == parts[0][0]
    decreases |parts|
  {
    if |parts| >= 2 {
      JoinTokens(parts[1..]);
      var p, j := parts[0], Join(parts[1..], " ");
      var s := p + " " + j;
      forall i | 0 <= i < |s| && IsSpace(s[i])
        ensures s[i] == ' ' && 0 < i < |s| - 1 && !IsSpace(s[i - 1]) && !IsSpace(s[i + 1])
      {
        if i > |p| {
          assert s[i] == j[i - |p| - 1];
          assert i - |p| - 1 > 0 ==> s[i - 1] == j[i - |p| - 2];
        }
      }
    }
  }

  /** normalize_whitespace in alcatel_isis.py: ' '.join(text.split()). */
  function NormalizeWhitespace(s: string): (r: string)
  {
    Join(Split(s), " ")
  }

  /** The normalised text is in normal form, keeps exactly the tokens of the
      input, and normalising again changes nothing. */
  lemma NormalizeWhitespaceSpec(s: string)
    ensures WsNormal(NormalizeWhitespace(s))
    ensures Split(NormalizeWhitespace(s)) == Split(s)
    ensures NormalizeWhitespace(NormalizeWhitespace(s)) == NormalizeWhitespace(s)
  {
    JoinTokens(Split(s));
    SplitJoin(Split(s));
  }

  /** The normal form is empty exactly when the input is blank. */
  lemma {:induction false} NormalizeEmpty(s: string)
    ensures NormalizeWhitespace(s) == "" <==> forall i :: 0 <= i < |s| ==> IsSpace(s[i])
    decreases |s|
  {
    if s != [] {
      NormalizeEmpty(s[1..]);
      if !IsSpace(s[0]) {
        var n := TokenLen(s);
        assert s[..n] != [];
        assert Join(Split(s), " ")[0] == s[0] by {
          JoinTokens(Split(s));
        }
      } else {
        assert forall i :: 1 <= i < |s| ==> s[i] == s[1..][i - 1];
      }
    }
  }

  /** Every character of a token split() finds comes from the input. */
  lemma {:induction false} SplitChars(s: string)
    ensures forall k, j :: 0 <= k < |Split(s)| && 0 <= j < |Split(s)[k]| ==> Split(s)[k][j] in s
    decreases |s|
  {
    if s != [] {
      SplitChars(s[1..]);
      if !IsSpace(s[0]) {
        var n := TokenLen(s);
        SplitChars(s[n..]);
        forall k, j | 0 <= k < |Split(s)| && 0 <= j < |Split(s)[k]| ensures Split(s)[k][j] in s {
          if k == 0 {
            assert Split(s)[k][j] == s[j];
          } else {
            assert Split(s)[k] == Split(s[n..])[k - 1];
            assert forall c :: c in s[n..] ==> c in s;
          }
        }
      } else {
        assert forall c :: c in s[1..] ==> c in s;
      }
    }
  }

  /** Every character of a join comes from the separator or a part. */
  lemma {:induction false} JoinChars(parts: seq<string>, sep: string)
    ensures forall j :: 0 <= j < |Join(parts, sep)| ==>
      Join(parts, sep)[j] in sep || exists k :: 0 <= k < |parts| && Join(parts, sep)[j] in parts[k]
    decreases |parts|
  {
    if |parts| >= 2 {
      JoinChars(parts[1..], sep);
      var t := Join(parts[1..], sep);
      var r := Join(parts, sep);
      assert r == parts[0] + sep + t;
      forall j | 0 <= j < |r| && r[j] !in sep
        ensures exists k :: 0 <= k < |parts| && r[j] in parts[k]
      {
        if j < |parts[0]| {
          assert r[j] in parts[0];
        } else if j >= |parts[0]| + |sep| {
          assert r[j] == t[j - |parts[0]| - |sep|];
          var k :| 0 <= k < |parts[1..]| && r[j] in parts[1..][k];
          assert r[j] in parts[k + 1];
        }
      }
    } else if |parts| == 1 {
      assert forall j :: 0 <= j < |parts[0]| ==> parts[0][j] in parts[0];
    }
  }

  /** Normalising introduces no character except ' '. */
  lemma NormalizeChars(s: string)
    ensures forall j :: 0 <= j < |NormalizeWhitespace(s)| ==>
      NormalizeWhitespace(s)[j] == ' ' || NormalizeWhitespace(s)[j] in s
  {
    SplitChars(s);
    JoinChars(Split(s), " ");
    var r := NormalizeWhitespace(s);
    forall j | 0 <= j < |r| && r[j] != ' ' ensures r[j] in s {
      var k :| 0 <= k < |Split(s)| && r[j] in Split(s)[k];
      var i :| 0 <= i < |Split(s)[k]| && Split(s)[k][i] == r[j];
    }
  }

  /** A string without whitespace normalises to itself. */
  lemma NormalizeNoSpace(s: string)
    requires NoSpace(s)
    ensures NormalizeWhitespace(s) == s
  {
    if s != [] {
      SplitOne(s);
    }
  }

  /** Deleting a character keeps only characters of the input. */
  lemma {:induction false} DeleteCharFrom(s: string, c: char)
    ensures forall j :: 0 <= j < |DeleteChar(s, c)| ==> DeleteChar(s, c)[j] in s
    ensures c !in s ==> DeleteChar(s, c) == s
    decreases |s|
  {
    if s != [] {
      DeleteCharFrom(s[1..], c);
      assert forall x :: x in s[1..] ==> x in s;
      if s[0] != c {
        assert DeleteChar(s, c) == [s[0]] + DeleteChar(s[1..], c);
        assert c !in s ==> s == [s[0]] + s[1..];
      }
    }
  }

  // ---------------------------------------------------------------------
  // find / split(sep) / replace

  /** The first position of p in s (str.find), or |s| when p occurs
      nowhere before the end. */
  function Find(s: string, p: string): (r: nat)
    ensures r <= |s|
    ensures r < |s| ==> StartsWith(s[r..], p)
    ensures forall i :: 0 <= i < r ==> !StartsWith(s[i..], p)
    decreases |s|
  {
    if s == [] || StartsWith(s, p) then 0
    else
      assert forall i :: 1 <= i <= |s| ==> s[i..] == s[1..][i - 1..];
      1 + Find(s[1..], p)
  }

  /** str.split(sep) for a non-empty separator: the pieces between
      occurrences of sep, scanning left to right. */
  function SplitSep(s: string, sep: string): (r: seq<string>)
    requires sep != []
    ensures |r| >= 1
    decreases |s|
  {
    var i := Find(s, sep);
    if i < |s| then
      assert StartsWith(s[i..], sep);
      [s[..i]] + SplitSep(s[i + |sep|..], sep)
    else [s]
  }

  /** Joining the pieces with the separator restores the string. */
  lemma {:induction false} JoinSplitSep(s: string, sep: string)
    requires sep != []
    ensures Join(SplitSep(s, sep), sep) == s
    decreases |s|
  {
    var i := Find(s, sep);
    if i < |s| {
      var rest := s[i + |sep|..];
      SplitSepCut(s, sep);
      JoinSplitSep(rest, sep);
      JoinCons(s[..i], SplitSep(rest, sep), sep);
    }
  }

  /** Every character of t occurs in s. */
  predicate CharsFrom(t: string, s: string) {
    forall c :: c in t ==> c in s
  }

  /** Every character of a piece comes from the input. */
  lemma {:induction false} SplitSepChars(s: string, sep: string)
    requires sep != []
    ensures forall k :: 0 <= k < |SplitSep(s, sep)| ==> CharsFrom(SplitSep(s, sep)[k], s)
    decreases |s|
  {
    var i := Find(s, sep);
    if i < |s| {
      SplitSepCut(s, sep);
      var rest := s[i + |sep|..];
      SplitSepChars(rest, sep);
      assert CharsFrom(s[..i], s);
      assert CharsFrom(rest, s);
    }
  }

  lemma SplitSepCut(s: string, sep: string)
    requires sep != [] && Find(s, sep) < |s|
    ensures var i := Find(s, sep);
      i + |sep| <= |s| &&
      SplitSep(s, sep) == [s[..i]] + SplitSep(s[i + |sep|..], sep) &&
      s == s[..i] + sep + s[i + |sep|..]
  {
    var i := Find(s, sep);
    CutAt(s, sep, i);
  }

  lemma CutAt(s: string, sep: string, i: nat)
    requires i <= |s| && StartsWith(s[i..], sep)
    ensures i + |sep| <= |s| && s == s[..i] + sep + s[i + |sep|..]
  {
    assert s[i..i + |sep|] == sep by {
      assert s[i..][..|sep|] == sep;
    }
    assert s == s[..i] + s[i..i + |sep|] + s[i + |sep|..];
  }

  /** Joining all pieces is joining all but the last, the separator, and the last. */
  lemma {:induction false} JoinSnoc(parts: seq<string>, sep: string)
    requires |parts| >= 2
    ensures Join(parts, sep) == Join(parts[..|parts| - 1], sep) + sep + parts[|parts| - 1]
    decreases |parts|
  {
    if |parts| > 2 {
      JoinSnoc(parts[1..], sep);
      assert parts[1..][..|parts| - 2] == parts[..|parts| - 1][1..];
    }
  }

  /** Searching for a one-character string finds nothing exactly when the
      character does not occur. */
  lemma FindChar(s: string, c: char)
    ensures Find(s, [c]) == |s| <==> c !in s
  {
    var r := Find(s, [c]);
    if r < |s| {
      assert s[r..][..1] == [c];
      assert s[r] == c;
    } else {
      forall i | 0 <= i < |s| ensures s[i] != c {
        assert s[i..][..1] == [s[i]];
      }
    }
  }

  /** str.split(sep) cuts nothing exactly when sep does not occur. */
  lemma SplitSepOne(s: string, sep: string)
    requires sep != []
    ensures |SplitSep(s, sep)| == 1 <==> Find(s, sep) == |s|
  {
    if Find(s, sep) < |s| {
      SplitSepCut(s, sep);
    }
  }

  /** The last piece of str.split(c) for a one-character separator does
      not hold c. */
  lemma {:induction false} SplitSepLast(s: string, c: char)
    ensures var p := SplitSep(s, [c]); c !in p[|p| - 1]
    decreases |s|
  {
    var i := Find(s, [c]);
    var p := SplitSep(s, [c]);
    if i < |s| {
      var rest := s[i + 1..];
      var r := SplitSep(rest, [c]);
      assert p == [s[..i]] + r by {
        SplitSepCut(s, [c]);
      }
      SplitSepLast(rest, c);
      LastCons(s[..i], r);
    } else {
      assert p == [s] by {
        SplitSepWhole(s, [c]);
      }
      FindChar(s, c);
    }
  }

  /** The last element of a sequence with one more element in front. */
  lemma LastCons<T>(x: T, r: seq<T>)
    requires r != []
    ensures ([x] + r)[|r|] == r[|r| - 1]
  {
  }

  /** With no separator in it the string is its own only piece. */
  lemma SplitSepWhole(s: string, sep: string)
    requires sep != [] && Find(s, sep) == |s|
    ensures SplitSep(s, sep) == [s]
  {
  }

  /** The three pieces of a concatenation, read back by slicing. */
  lemma ConcatSlices<T>(a: seq<T>, m: seq<T>, b: seq<T>)
    ensures (a + m + b)[..|a|] == a
    ensures (a + m + b)[|a|..] == m + b
    ensures (m + b)[..|m|] == m
    ensures (a + m + b)[|a| + |m|..] == b
  {
  }

  /** A suffix of a sequence is the suffix of all but its last element,
      then the last element. */
  lemma SliceSnoc<T>(s: seq<T>, j: nat)
    requires j < |s|
    ensures s[j..] == s[..|s| - 1][j..] + [s[|s| - 1]]
  {
  }

  lemma JoinCons(p: string, tail: seq<string>, sep: string)
    requires |tail| >= 1
    ensures Join([p] + tail, sep) == p + sep + Join(tail, sep)
  {
    assert ([p] + tail)[1..] == tail;
  }

  /** str.split(sep, 1): at most one cut, at the first occurrence. */
  function SplitOnce(s: string, sep: string): (r: seq<string>)
    requires sep != []
    ensures |r| == 1 ==> r[0] == s
    ensures |r| == 2 ==> r[0] + sep + r[1] == s
    ensures 1 <= |r| <= 2
  {
    var i := Find(s, sep);
    if i < |s| then
      assert StartsWith(s[i..], sep);
      assert s[i..][..|sep|] == sep;
      assert s[i..i + |sep|] == sep;
      assert s == s[..i] + sep + s[i + |sep|..];
      [s[..i], s[i + |sep|..]]
    else [s]
  }

  /** A string that does not occur is not found. */
  lemma FindAbsent(s: string, p: string)
    requires p != [] && !Contains(s, p)
    ensures Find(s, p) == |s|
  {
    ContainsAt(s, p);
  }

  /** The first position of a one-character separator is right after a
      stretch that does not hold it. */
  lemma FindCharAfter(a: string, c: char, b: string)
    requires forall i :: 0 <= i < |a| ==> a[i] != c
    ensures Find(a + [c] + b, [c]) == |a|
  {
    var s := a + [c] + b;
    var r := Find(s, [c]);
    assert s[|a|..][..1] == [c];
    forall j | 0 <= j < |a|
      ensures !StartsWith(s[j..], [c])
    {
      assert s[j..][..1] == [a[j]];
    }
  }

  /** s.split(c, 1) cuts right after a when a does not hold c. */
  lemma SplitOnceAfter(a: string, c: char, b: string)
    requires forall i :: 0 <= i < |a| ==> a[i] != c
    ensures SplitOnce(a + [c] + b, [c]) == [a, b]
  {
    var s := a + [c] + b;
    FindCharAfter(a, c, b);
    assert s[..|a|] == a;
    assert s[|a| + 1..] == b;
  }

  /** s.split(c, 1) does not cut a string without c. */
  lemma SplitOnceNone(a: string, c: char)
    requires forall i :: 0 <= i < |a| ==> a[i] != c
    ensures SplitOnce(a, [c]) == [a]
  {
    FindCharAfter(a, c, []);
    assert a + [c] + [] == a + [c];
  }

  /** A string without whitespace at either end is its own strip(). */
  lemma StripId(s: string)
    requires s != [] && !IsSpace(s[0]) && !IsSpace(s[|s| - 1])
    ensures Strip(s) == s
  {
  }

  /** str.replace(pat, rep): every occurrence, scanning left to right
      without overlap. */
  function ReplaceAll(s: string, pat: string, rep: string): (r: string)
    requires pat != []
    decreases |s|
  {
    if StartsWith(s, pat) then rep + ReplaceAll(s[|pat|..], pat, rep)
    else if s == [] then []
    else [s[0]] + ReplaceAll(s[1..], pat, rep)
  }

  /** Replacing a string that does not occur changes nothing. */
  lemma {:induction false} ReplaceAbsent(s: string, pat: string, rep: string)
    requires pat != [] && !Contains(s, pat)
    ensures ReplaceAll(s, pat, rep) == s
    decreases |s|
  {
    if s != [] {
      ReplaceAbsent(s[1..], pat, rep);
    }
  }

  /** A string whose first character never occurs in s does not occur in s. */
  lemma {:induction false} AbsentHead(s: string, p: string)
    requires p != [] && forall i :: 0 <= i < |s| ==> s[i] != p[0]
    ensures !Contains(s, p)
    decreases |s|
  {
    if s != [] {
      assert forall i :: 0 <= i < |s| - 1 ==> s[1..][i] == s[i + 1];
      AbsentHead(s[1..], p);
      if |p| <= |s| {
        assert s[..|p|][0] == s[0];
      }
      assert !StartsWith(s, p);
    }
  }

  /** The first occurrence is the one after a stretch free of its first
      character. */
  lemma ReplaceAfterPlain(a: string, pat: string, b: string, rep: string)
    requires pat != [] && forall i :: 0 <= i < |a| ==> a[i] != pat[0]
    ensures ReplaceAll(a + pat + b, pat, rep) == a + rep + ReplaceAll(b, pat, rep)
  {
    var s := a + pat + b;
    forall i | 0 <= i < |a|
      ensures !StartsWith(s[i..], pat)
    {
      assert s[i..][0] == a[i];
      if |pat| <= |s[i..]| {
        assert s[i..][..|pat|][0] == s[i..][0];
      }
    }
    ReplaceUpTo(a, pat, b, rep);
  }

  /** For a pattern whose first character does not recur in it, the first
      occurrence is the one after a stretch that does not contain it. */
  lemma ReplaceAfterAbsent(a: string, pat: string, b: string, rep: string)
    requires pat != [] && !Contains(a, pat)
    requires forall k :: 0 < k < |pat| ==> pat[k] != pat[0]
    ensures ReplaceAll(a + pat + b, pat, rep) == a + rep + ReplaceAll(b, pat, rep)
  {
    var s := a + pat + b;
    ContainsAt(a, pat);
    forall i | 0 <= i < |a|
      ensures !StartsWith(s[i..], pat)
    {
      if i + |pat| <= |a| {
        assert !OccursAt(a, pat, i);
        assert s[i..][..|pat|] == a[i..i + |pat|];
      } else {
        var k := |a| - i;
        assert s[i..][k] == pat[0];
        assert pat[k] != pat[0];
        if |pat| <= |s[i..]| {
          assert s[i..][..|pat|][k] == s[i..][k];
        }
      }
    }
    ReplaceUpTo(a, pat, b, rep);
  }

  /** A pattern that misses a character c occurs in a + [c] + b only when
      it occurs in a or in b. */
  lemma ContainsAcross(a: string, c: char, b: string, p: string)
    requires p != [] && forall k :: 0 <= k < |p| ==> p[k] != c
    requires !Contains(a, p) && !Contains(b, p)
    ensures !Contains(a + [c] + b, p)
  {
    var s := a + [c] + b;
    assert s == a + ([c] + b);
    ContainsAt(a, p);
    ContainsAt(b, p);
    ContainsAt(s, p);
    forall i | 0 <= i <= |s| - |p|
      ensures !OccursAt(s, p, i)
    {
      if i + |p| <= |a| {
        OccursPrefix(a, [c] + b, p, i);
      } else if i > |a| {
        OccursSuffix(a + [c], b, p, i);
      } else {
        assert s[i..i + |p|][|a| - i] == c;
      }
    }
  }

  /** An occurrence that ends inside a is one in a. */
  lemma OccursPrefix(a: string, b: string, p: string, i: int)
    requires 0 <= i && i + |p| <= |a|
    ensures OccursAt(a + b, p, i) == OccursAt(a, p, i)
  {
    assert (a + b)[i..i + |p|] == a[i..i + |p|];
  }

  /** An occurrence that starts after a is one in b. */
  lemma OccursSuffix(a: string, b: string, p: string, i: int)
    requires |a| <= i
    ensures OccursAt(a + b, p, i) == OccursAt(b, p, i - |a|)
  {
    if i <= |a + b| - |p| {
      assert (a + b)[i..i + |p|] == b[i - |a|..i - |a| + |p|];
    }
  }

  /** The first occurrence is the one after a stretch in which no
      occurrence starts. */
  lemma {:induction false} ReplaceUpTo(a: string, pat: string, b: string, rep: string)
    requires pat != []
    requires forall i :: 0 <= i < |a| ==> !StartsWith((a + pat + b)[i..], pat)
    ensures ReplaceAll(a + pat + b, pat, rep) == a + rep + ReplaceAll(b, pat, rep)
    decreases |a|
  {
    var s := a + pat + b;
    if a == [] {
      assert s == pat + b;
      ReplaceFront(pat, b, rep);
    } else {
      var t := a[1..] + pat + b;
      assert s == [a[0]] + t;
      assert !StartsWith(s, pat) by {
        assert s[0..] == s;
      }
      ReplaceSkip(a[0], t, pat, rep);
      forall i | 0 <= i < |a| - 1
        ensures !StartsWith(t[i..], pat)
      {
        assert t[i..] == s[i + 1..];
      }
      ReplaceUpTo(a[1..], pat, b, rep);
      ConsRest(a, rep, ReplaceAll(b, pat, rep));
    }
  }

  /** A character where no occurrence starts is copied and scanning goes
      on after it. */
  lemma ReplaceSkip(c: char, t: string, pat: string, rep: string)
    requires pat != [] && !StartsWith([c] + t, pat)
    ensures ReplaceAll([c] + t, pat, rep) == [c] + ReplaceAll(t, pat, rep)
  {
    assert ([c] + t)[1..] == t;
  }

  /** A non-empty sequence is its head in front of its tail. */
  lemma ConsRest<T>(a: seq<T>, m: seq<T>, n: seq<T>)
    requires a != []
    ensures [a[0]] + (a[1..] + m + n) == a + m + n
  {
    assert a == [a[0]] + a[1..];
  }

  /** Removing a string (replace by '') never lengthens the input. */
  lemma {:induction false} RemoveShortens(s: string, pat: string)
    requires pat != []
    ensures |ReplaceAll(s, pat, "")| <= |s|
    ensures ReplaceAll(s, pat, "") != s ==> |ReplaceAll(s, pat, "")| < |s|
    decreases |s|
  {
    if StartsWith(s, pat) {
      RemoveShortens(s[|pat|..], pat);
    } else if s != [] {
      RemoveShortens(s[1..], pat);
    }
  }

  /** An occurrence at the front is replaced and scanning resumes after it. */
  lemma ReplaceFront(pat: string, s: string, rep: string)
    requires pat != []
    ensures ReplaceAll(pat + s, pat, rep) == rep + ReplaceAll(s, pat, rep)
  {
    assert (pat + s)[..|pat|] == pat;
    assert (pat + s)[|pat|..] == s;
  }

  // ---------------------------------------------------------------------
  // slicing, case, numbers

  /** The Python slice s[1:-1], clamped as Python clamps it. */
  function Inner(s: string): (r: string)
    ensures |s| >= 2 ==> [s[0]] + r + [s[|s| - 1]] == s
    ensures |s| < 2 ==> r == ""
  {
    if |s| >= 2 then s[1..|s| - 1] else ""
  }

  function LowerChar(c: char): char {
    if 'A' <= c <= 'Z' then (c as int + 32) as char else c
  }

  /** str.lower() on ASCII letters. */
  function Lower(s: string): (r: string)
  {
    seq(|s|, i requires 0 <= i < |s| => LowerChar(s[i]))
  }

  /** Every character of s replaced: c1 by c2. */
  function ReplaceChar(s: string, c1: char, c2: char): (r: string)
  {
    seq(|s|, i requires 0 <= i < |s| => if s[i] == c1 then c2 else s[i])
  }

  /** Every occurrence of the character c deleted. */
  function DeleteChar(s: string, c: char): (r: string)
    ensures forall i :: 0 <= i < |r| ==> r[i] != c
    ensures |r| <= |s|
  {
    if s == [] then []
    else if s[0] == c then DeleteChar(s[1..], c)
    else [s[0]] + DeleteChar(s[1..], c)
  }

  /** Deleting from a concatenation deletes from each part. */
  lemma {:induction false} DeleteCharAppend(a: string, b: string, c: char)
    ensures DeleteChar(a + b, c) == DeleteChar(a, c) + DeleteChar(b, c)
    decreases |a|
  {
    if a == [] {
      assert a + b == b;
    } else {
      assert (a + b)[0] == a[0];
      assert (a + b)[1..] == a[1..] + b;
      DeleteCharAppend(a[1..], b, c);
    }
  }

  /** A single character goes when it is c and stays otherwise; with
      DeleteCharAppend this fixes DeleteChar on every string: the
      characters other than c, in their order. */
  lemma DeleteCharSingle(x: char, c: char)
    ensures DeleteChar([x], c) == (if x == c then [] else [x])
  {
    assert [x][1..] == [];
  }

  /** The number a string of decimal digits spells. */
  function DigitsValue(s: string): int {
    if s == [] then 0 else DigitsValue(s[..|s| - 1]) * 10 + (s[|s| - 1] as int - '0' as int)
  }

  function DigitChar(d: nat): char
    requires d < 10
  {
    ('0' as int + d) as char
  }

  /** str(n) for a natural number. */
  function NatToStr(n: nat): (r: string)
    ensures r != []
  {
    if n < 10 then [DigitChar(n)] else NatToStr(n / 10) + [DigitChar(n % 10)]
  }

  /** str(n) is the decimal spelling of n: digits only, no leading zero,
      and the digits read back give n. */
  lemma {:induction false} NatToStrDigits(n: nat)
    ensures forall i :: 0 <= i < |NatToStr(n)| ==> '0' <= NatToStr(n)[i] <= '9'
    ensures NatToStr(n)[0] == '0' ==> n == 0
    ensures DigitsValue(NatToStr(n)) == n
    decreases n
  {
    var r := NatToStr(n);
    if n < 10 {
      assert r[..0] == [];
    } else {
      NatToStrDigits(n / 10);
      var p := NatToStr(n / 10);
      assert r == p + [DigitChar(n % 10)];
      assert r[..|r| - 1] == p;
      assert r[0] == p[0];
    }
  }

  /** str(i) for an integer. */
  function IntToStr(i: int): string {
    if i < 0 then "-" + NatToStr(-i) else NatToStr(i)
  }
}
