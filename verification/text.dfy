/**
 * The string operations the FEN parsers use from Rust's standard library:
 * `str::split` on one character, ASCII `to_lowercase`, and `contains`.
 */
module Text {

  /** The parts of `parts` joined with `sep` between neighbours, as `split` undoes. */
  function Join(parts: seq<string>, sep: char): string
    requires |parts| >= 1
  {
    if |parts| == 1 then parts[0] else parts[0] + [sep] + Join(parts[1..], sep)
  }

  /**
   * `s.split(sep)`: the maximal runs of `s` between occurrences of `sep`,
   * empty runs included, so there is always at least one part.
   */
  function Split(s: string, sep: char): (parts: seq<string>)
    ensures |parts| >= 1
    ensures forall i :: 0 <= i < |parts| ==> sep !in parts[i]
    ensures Join(parts, sep) == s
    decreases |s|
  {
    if |s| == 0 then [""]
    else if s[0] == sep then [""] + Split(s[1..], sep)
    else
      var rest := Split(s[1..], sep);
      [[s[0]] + rest[0]] + rest[1..]
  }

  /** Dropping the first character of a non-empty first part. */
  lemma JoinTail(parts: seq<string>, sep: char)
    requires |parts| >= 1 && |parts[0]| > 0
    ensures |Join(parts, sep)| > 0 && Join(parts, sep)[0] == parts[0][0]
    ensures Join(parts, sep)[1..] == Join([parts[0][1..]] + parts[1..], sep)
  {
    var tail := [parts[0][1..]] + parts[1..];
    if |parts| > 1 {
      assert tail[1..] == parts[1..];
    }
  }

  /** Splitting the join of parts free of `sep` gives the parts back. */
  lemma {:induction false} SplitJoin(parts: seq<string>, sep: char)
    requires |parts| >= 1 && forall i :: 0 <= i < |parts| ==> sep !in parts[i]
    ensures Split(Join(parts, sep), sep) == parts
    decreases |Join(parts, sep)|, |parts[0]|
  {
    if |parts[0]| == 0 {
      if |parts| > 1 {
        assert Join(parts, sep) == [sep] + Join(parts[1..], sep);
        assert Join(parts, sep)[1..] == Join(parts[1..], sep);
        SplitJoin(parts[1..], sep);
        assert [""] + parts[1..] == parts;
      }
    } else {
      var tail := [parts[0][1..]] + parts[1..];
      JoinTail(parts, sep);
      assert sep !in tail[0] by {
        assert forall c :: c in parts[0][1..] ==> c in parts[0];
      }
      assert forall i :: 1 <= i < |tail| ==> tail[i] == parts[i];
      SplitJoin(tail, sep);
      assert [parts[0][0]] + tail[0] == parts[0];
      assert [[parts[0][0]] + tail[0]] + tail[1..] == parts;
    }
  }

  /** A character other than the separator that no part holds is not in their join. */
  lemma {:induction false} JoinFree(parts: seq<string>, sep: char, c: char)
    requires |parts| >= 1 && c != sep && forall i :: 0 <= i < |parts| ==> c !in parts[i]
    ensures c !in Join(parts, sep)
    decreases |parts|
  {
    if |parts| > 1 {
      JoinFree(parts[1..], sep, c);
    }
  }

  /** Appending to the last part appends to the join. */
  lemma {:induction false} JoinExtend(parts: seq<string>, sep: char, y: string)
    requires |parts| >= 1
    ensures Join(parts[..|parts| - 1] + [parts[|parts| - 1] + y], sep) == Join(parts, sep) + y
    decreases |parts|
  {
    if |parts| > 1 {
      var q := parts[..|parts| - 1] + [parts[|parts| - 1] + y];
      assert q[1..] == parts[1..][..|parts[1..]| - 1] + [parts[1..][|parts[1..]| - 1] + y];
      JoinExtend(parts[1..], sep, y);
    }
  }

  /** Text free of the separator appended to `x` lengthens the last part of its split. */
  lemma SplitExtend(x: string, sep: char, y: string)
    requires sep !in y
    ensures |Split(x + y, sep)| == |Split(x, sep)|
    ensures Split(x + y, sep) == Split(x, sep)[..|Split(x, sep)| - 1] + [Split(x, sep)[|Split(x, sep)| - 1] + y]
  {
    var p := Split(x, sep);
    var parts := p[..|p| - 1] + [p[|p| - 1] + y];
    JoinExtend(p, sep, y);
    assert forall i :: 0 <= i < |parts| - 1 ==> parts[i] == p[i];
    SplitJoin(parts, sep);
  }

  /** ASCII lower case of one character; other characters are kept. */
  function LowerChar(c: char): (r: char)
    ensures 'A' <= c <= 'Z' ==> r as int == c as int + 32
    ensures !('A' <= c <= 'Z') ==> r == c
  {
    if 'A' <= c <= 'Z' then (c as int + 32) as char else c
  }

  /** `to_lowercase` on ASCII text: each character lowered, the length kept. */
  function Lower(s: string): (r: string)
    ensures |r| == |s| && forall i :: 0 <= i < |s| ==> r[i] == LowerChar(s[i])
  {
    if |s| == 0 then "" else [LowerChar(s[0])] + Lower(s[1..])
  }
}
