/** String helpers shared by both scripts: Python's `str.split(c, 1)`,
    `str.rsplit(c, 1)` and `str.lower()` restricted to what the scripts need. */
module Text {

  datatype Option<T> = None | Some(value: T)

  /** `s.split(c, 1)`: the text before the FIRST `c` and the text after it;
      `None` when `c` does not occur (Python then yields a one-element list). */
  function SplitOnce(s: string, c: char): (r: Option<(string, string)>)
    ensures r.None? <==> c !in s
    ensures r.Some? ==> s == r.value.0 + [c] + r.value.1 && c !in r.value.0
  {
    if s == [] then None
    else if s[0] == c then Some(([], s[1..]))
    else match SplitOnce(s[1..], c)
      case None => None
      case Some((before, after)) => Some(([s[0]] + before, after))
  }

  /** `s.rsplit(c, 1)`: the text before the LAST `c` and the text after it. */
  function RSplitOnce(s: string, c: char): (r: Option<(string, string)>)
    ensures r.None? <==> c !in s
    ensures r.Some? ==> s == r.value.0 + [c] + r.value.1 && c !in r.value.1
  {
    if s == [] then None
    else if s[|s| - 1] == c then Some((s[..|s| - 1], []))
    else match RSplitOnce(s[..|s| - 1], c)
      case None => None
      case Some((before, after)) => Some((before, after + [s[|s| - 1]]))
  }

  /** Splitting `u + [c] + v` at the first `c` gives back `u` and `v`
      whenever `u` has no `c`, whatever `v` holds. */
  lemma {:induction false} SplitOnceAt(u: string, c: char, v: string)
    requires c !in u
    ensures SplitOnce(u + [c] + v, c) == Some((u, v))
  {
    if u != [] {
      assert (u + [c] + v)[1..] == u[1..] + [c] + v;
      SplitOnceAt(u[1..], c, v);
      assert [u[0]] + u[1..] == u;
    }
  }

  /** Splitting `u + [c] + v` at the last `c` gives back `u` and `v`
      whenever `v` has no `c`, whatever `u` holds. */
  lemma {:induction false} RSplitOnceAt(u: string, c: char, v: string)
    requires c !in v
    ensures RSplitOnce(u + [c] + v, c) == Some((u, v))
  {
    var s := u + [c] + v;
    if v == [] {
      assert s[..|s| - 1] == u;
    } else {
      var w := v[..|v| - 1];
      assert s[..|s| - 1] == u + [c] + w;
      RSplitOnceAt(u, c, w);
      assert w + [v[|v| - 1]] == v;
    }
  }

  /** `str.lower()` on the ASCII letters. Other characters are kept: no
      non-ASCII character lowers to a string made only of ASCII letters
      other than U+212A (KELVIN SIGN, lowered to `k`), and no string the
      scripts compare against contains `k`. */
  function LowerChar(ch: char): char
  {
    if 'A' <= ch <= 'Z' then (ch as int - 'A' as int + 'a' as int) as char else ch
  }

  function Lower(s: string): (r: string)
    ensures |r| == |s|
  {
    seq(|s|, i requires 0 <= i < |s| => LowerChar(s[i]))
  }
}
