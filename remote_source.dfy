/** RemoteSource._strip_before: drop the part of a command's output up to
    and including the first line that mentions a marker, and every later
    line that mentions it again. */
module RemoteSource {
  import opened Strs

  // ---------------------------------------------------------------------
  // str.splitlines(True)

  /** The characters str.splitlines treats as line boundaries. */
  predicate IsLineBreak(c: char) {
    c == '\n' || c == '\r' || c == '\U{b}' || c == '\U{c}'
    || c == '\U{1c}' || c == '\U{1d}' || c == '\U{1e}' || c == '\U{85}'
    || c == '\U{2028}' || c == '\U{2029}'
  }

  /** Position of the first line boundary in s, or |s|. */
  function BreakAt(s: string): (r: nat)
    ensures r <= |s|
    ensures r < |s| ==> IsLineBreak(s[r])
    ensures forall i :: 0 <= i < r ==> !IsLineBreak(s[i])
  {
    if s == [] || IsLineBreak(s[0]) then 0 else 1 + BreakAt(s[1..])
  }

  /** Length of the first line of s, its terminator included ("\r\n" is
      one terminator). */
  function LineLen(s: string): (n: nat)
    requires s != []
    ensures 1 <= n <= |s|
  {
    var b := BreakAt(s);
    if b == |s| then |s|
    else if s[b] == '\r' && b + 1 < |s| && s[b + 1] == '\n' then b + 2
    else b + 1
  }

  /** target.splitlines(True): the lines with their endings kept. */
  function SplitLines(s: string): (r: seq<string>)
    ensures forall k :: 0 <= k < |r| ==> r[k] != ""
    decreases |s|
  {
    if s == [] then [] else
      var n := LineLen(s);
      [s[..n]] + SplitLines(s[n..])
  }

  /** ''.join(lines). */
  function Concat(lines: seq<string>): string {
    if lines == [] then "" else Concat(lines[..|lines| - 1]) + lines[|lines| - 1]
  }

  lemma {:induction false} ConcatCons(a: string, lines: seq<string>)
    ensures Concat([a] + lines) == a + Concat(lines)
    decreases |lines|
  {
    if lines != [] {
      var init := lines[..|lines| - 1];
      assert ([a] + lines)[..|lines|] == [a] + init;
      ConcatCons(a, init);
    } else {
      assert [a] + lines == [a];
    }
  }

  /** The lines, endings kept, put back together give the text. */
  lemma {:induction false} SplitLinesConcat(s: string)
    ensures Concat(SplitLines(s)) == s
    decreases |s|
  {
    if s != [] {
      var n := LineLen(s);
      SplitLinesConcat(s[n..]);
      ConcatCons(s[..n], SplitLines(s[n..]));
      assert s[..n] + s[n..] == s;
    }
  }

  // ---------------------------------------------------------------------
  // the loop, as a fold over the lines

  datatype StripState = StripState(out: string, matched: bool)

  /** The state (out, match) after the loop has seen the given lines. */
  function StripFold(lines: seq<string>, mentions: string -> bool): StripState {
    if lines == [] then StripState("", false)
    else
      var s := StripFold(lines[..|lines| - 1], mentions);
      var line := lines[|lines| - 1];
      if mentions(line) then StripState(s.out, true)
      else if s.matched then StripState(s.out + line, true)
      else s
  }

  // ---------------------------------------------------------------------
  // the declarative reading

  /** Index of the first line that mentions the marker, or |lines|. */
  function FirstMatch(lines: seq<string>, mentions: string -> bool): (k: nat)
    ensures k <= |lines|
    ensures k < |lines| ==> mentions(lines[k])
    ensures forall i :: 0 <= i < k ==> !mentions(lines[i])
  {
    if lines == [] || mentions(lines[0]) then 0
    else 1 + FirstMatch(lines[1..], mentions)
  }

  /** The lines that do not mention the marker, in order. */
  function Unmatched(lines: seq<string>, mentions: string -> bool): (r: seq<string>)
    ensures |r| <= |lines|
    ensures forall j :: 0 <= j < |r| ==> !mentions(r[j])
  {
    if lines == [] then []
    else
      var last := lines[|lines| - 1];
      Unmatched(lines[..|lines| - 1], mentions) + (if mentions(last) then [] else [last])
  }

  /** What _strip_before returns for the given lines: nothing when no line
      mentions the marker; otherwise the lines after the first mention, minus
      those that mention it again, joined in order. */
  function StripSpec(lines: seq<string>, mentions: string -> bool): string {
    var k := FirstMatch(lines, mentions);
    if k < |lines| then Concat(Unmatched(lines[k + 1..], mentions)) else ""
  }

  /** Where the first mention is once one more line has been read. */
  lemma FirstMatchSnoc(lines: seq<string>, mentions: string -> bool)
    requires lines != []
    ensures var init := lines[..|lines| - 1];
            var k0 := FirstMatch(init, mentions);
            FirstMatch(lines, mentions) ==
              if k0 < |init| then k0
              else if mentions(lines[|lines| - 1]) then |init|
              else |lines|
  {
    var init := lines[..|lines| - 1];
    assert forall i :: 0 <= i < |init| ==> init[i] == lines[i];
  }

  /** One more line at the end is kept at the end when it does not
      mention the marker. */
  lemma UnmatchedSnoc(t: seq<string>, last: string, mentions: string -> bool)
    ensures Concat(Unmatched(t + [last], mentions)) ==
      Concat(Unmatched(t, mentions)) + (if mentions(last) then "" else last)
  {
    assert (t + [last])[..|t|] == t;
    var u := Unmatched(t, mentions);
    if mentions(last) {
      assert u + [] == u;
    } else {
      assert (u + [last])[..|u|] == u;
    }
  }

  /** The reading when the first mention is at line k. */
  lemma StripSpecAt(lines: seq<string>, mentions: string -> bool, k: nat)
    requires FirstMatch(lines, mentions) == k < |lines|
    ensures StripSpec(lines, mentions) == Concat(Unmatched(lines[k + 1..], mentions))
  {
  }

  /** The fold computes the declarative reading, and its flag says whether
      some line mentioned the marker. */
  lemma {:induction false} StripFoldSpec(lines: seq<string>, mentions: string -> bool)
    ensures StripFold(lines, mentions).matched <==> FirstMatch(lines, mentions) < |lines|
    ensures StripFold(lines, mentions).out == StripSpec(lines, mentions)
    decreases |lines|
  {
    if lines != [] {
      var n := |lines|;
      var init := lines[..n - 1];
      var last := lines[n - 1];
      StripFoldSpec(init, mentions);
      FirstMatchSnoc(lines, mentions);
      var st := StripFold(init, mentions);
      var k0 := FirstMatch(init, mentions);
      if k0 < n - 1 {
        var tail := init[k0 + 1..];
        assert FirstMatch(lines, mentions) == k0;
        Strs.SliceSnoc(lines, k0 + 1);
        UnmatchedSnoc(tail, last, mentions);
        StripSpecAt(lines, mentions, k0);
        StripSpecAt(init, mentions, k0);
      } else if mentions(last) {
        assert lines[n..] == [];
        assert StripSpec(lines, mentions) == Concat(Unmatched([], mentions));
      } else {
        assert StripSpec(lines, mentions) == "";
      }
    }
  }

  /** Whether a line mentions what: `what in line`. */
  function Mentions(what: string): string -> bool {
    line => Contains(line, what)
  }

  /** _strip_before(target, what). */
  method StripBefore(target: string, what: string) returns (out: string)
    ensures out == StripSpec(SplitLines(target), Mentions(what))
    ensures (forall l :: l in SplitLines(target) ==> !Contains(l, what)) ==> out == ""
  {
    var lines := SplitLines(target);
    ghost var mentions := Mentions(what);
    out := "";
    var matched := false;
    for i := 0 to |lines|
      invariant StripFold(lines[..i], mentions) == StripState(out, matched)
    {
      assert lines[..i + 1][..i] == lines[..i];
      var line := lines[i];
      assert mentions(line) == Contains(line, what);
      if Contains(line, what) {
        matched := true;
      } else if matched {
        out := out + line;
      }
    }
    assert lines[..|lines|] == lines;
    StripFoldSpec(lines, mentions);
    var k := FirstMatch(lines, mentions);
    if k < |lines| {
      assert mentions(lines[k]) && lines[k] in lines;
    }
  }
}
