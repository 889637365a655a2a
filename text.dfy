/**
 * String helpers shared by the dashboard model: Python's `sep.join(parts)`
 * and the search for a single character.
 */
module Text {

  /** Python's `sep.join(parts)`: the parts in order, with `sep` between neighbours. */
  function Join(sep: string, parts: seq<string>): (joined: string)
    ensures parts == [] ==> joined == ""
    ensures parts != [] ==> parts[0] <= joined
  {
    if |parts| == 0 then ""
    else if |parts| == 1 then parts[0]
    else parts[0] + sep + Join(sep, parts[1..])
  }

  /** Appending one part to a non-empty list appends the separator and that part. */
  lemma {:induction false} JoinAppend(sep: string, parts: seq<string>, last: string)
    requires parts != []
    ensures Join(sep, parts + [last]) == Join(sep, parts) + sep + last
  {
    var longer := parts + [last];
    if |parts| == 1 {
      assert longer[1..] == [last];
    } else {
      assert longer[1..] == parts[1..] + [last];
      JoinAppend(sep, parts[1..], last);
    }
  }

  /**
   * Position of the first `c` in `s`, or `|s|` when `s` holds no `c`.
   */
  function IndexOf(s: string, c: char): (i: nat)
    ensures i <= |s|
    ensures forall j :: 0 <= j < i ==> s[j] != c
    ensures i < |s| ==> s[i] == c
    ensures i == |s| <==> c !in s
  {
    if s == [] then 0
    else if s[0] == c then 0
    else 1 + IndexOf(s[1..], c)
  }

  /** In `p + [c] + rest` with no `c` inside `p`, the first `c` is the one right after `p`. */
  lemma IndexOfAfter(p: string, c: char, rest: string)
    requires c !in p
    ensures IndexOf(p + [c] + rest, c) == |p|
  {
    var s := p + [c] + rest;
    assert s[|p|] == c;
  }
}
