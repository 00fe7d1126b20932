/** The two string operations the commit projection relies on: an ordinal
    search for a one-character needle (`String.IndexOf(…, Ordinal)`), and the
    "text before the first separator, unless the separator comes first" rule
    used both for the first line of a message and for the name part of a raw
    `Name <email>` author string. */
module Text {

  /** `s` begins with `p`. */
  predicate IsPrefix(p: string, s: string)
  {
    |p| <= |s| && s[..|p|] == p
  }

  /** Index of the first occurrence of `c` in `s`, or -1 when there is none,
      as `IndexOf` returns for an ordinal search. */
  function IndexOf(s: string, c: char): (r: int)
    ensures -1 <= r < |s|
    ensures r == -1 <==> c !in s
    ensures 0 <= r ==> s[r] == c
    ensures forall j :: 0 <= j < r ==> s[j] != c
  {
    if |s| == 0 then -1
    else if s[0] == c then 0
    else
      var k := IndexOf(s[1..], c);
      if k < 0 then -1 else k + 1
  }

  /** The part of `s` before the first `c`, taken only when that index is
      greater than zero; otherwise (no `c`, or `c` at index 0) the whole of `s`. */
  function LeadingSegment(s: string, c: char): (r: string)
    ensures IsPrefix(r, s)
    ensures c !in s ==> r == s
    ensures |s| > 0 && s[0] == c ==> r == s
    ensures c in s && s[0] != c ==> 0 < |r| < |s| && c !in r && s[|r|] == c
  {
    var i := IndexOf(s, c);
    if i > 0 then s[..i] else s
  }

  /** Reference characterisation: when `s` holds a `c` that is not its first
      character, the segment is the one prefix of `s` that is free of `c` and
      is followed by `c`. */
  lemma LeadingSegmentUnique(s: string, c: char, p: string)
    requires |s| > 0 && s[0] != c
    ensures (IsPrefix(p, s) && |p| < |s| && c !in p && s[|p|] == c)
        <==> (c in s && p == LeadingSegment(s, c))
  {
    if IsPrefix(p, s) && |p| < |s| && c !in p && s[|p|] == c {
      var r := LeadingSegment(s, c);
      assert c in s;
      assert |r| == |p|;
    }
  }
}
