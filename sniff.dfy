/** The file sniffers of jarchive/parsers (is_juniper in juniper.py and
    is_ariasta in arista.py): both walk the first lines of a configuration
    file looking for a line that starts with a marker, give up once line
    index 6 is reached, and return None when the file ends first. */
module Sniff {
  import opened Py
  import Strs

  /** What a sniffer returns for the lines and the marker: True when one of
      lines 0..5 starts with the marker, False when there is a seventh line
      and none does, None (falsy) when the lines run out first. */
  function Sniffed(lines: seq<string>, marker: string): Option<bool> {
    if exists j :: 0 <= j < |lines| && j <= 5 && Strs.StartsWith(lines[j], marker) then Some(true)
    else if |lines| > 6 then Some(false)
    else None
  }

  /** The sniffer loop: a line counter that ends the walk at index 6. */
  method SniffLines(conf: seq<string>, marker: string) returns (r: Option<bool>)
    ensures r == Sniffed(conf, marker)
  {
    var i := 0;
    while i < |conf|
      invariant 0 <= i <= |conf| && i <= 6
      invariant forall j :: 0 <= j < i ==> !Strs.StartsWith(conf[j], marker)
    {
      if i > 5 {
        return Some(false);
      }
      if Strs.StartsWith(conf[i], marker) {
        return Some(true);
      }
      i := i + 1;
    }
    return None;
  }

  /** Lines after the seventh are never read: the answer for a file is the
      answer for its first seven lines. */
  lemma {:induction false} SniffedPrefix(lines: seq<string>, marker: string)
    requires |lines| > 7
    ensures Sniffed(lines, marker) == Sniffed(lines[..7], marker)
  {
    var p := lines[..7];
    assert forall j :: 0 <= j < 7 ==> p[j] == lines[j];
    if exists j :: 0 <= j < |lines| && j <= 5 && Strs.StartsWith(lines[j], marker) {
      var j :| 0 <= j < |lines| && j <= 5 && Strs.StartsWith(lines[j], marker);
      assert Strs.StartsWith(p[j], marker);
    }
  }
}
