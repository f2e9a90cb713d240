/** String helpers the notifier relies on: Python's `str.lower`, the
    substring test `t in s`, and `sep.join(xs)`. */
module Text {

  /** Lower-cases one character; only the ASCII letters A-Z change. */
  function LowerChar(c: char): char
  {
    if 'A' <= c <= 'Z' then (c as int + 32) as char else c
  }

  /** `s.lower()`, restricted to ASCII letters. */
  function Lower(s: string): (r: string)
    ensures |r| == |s|
    ensures forall i :: 0 <= i < |s| ==> r[i] == LowerChar(s[i])
  {
    seq(|s|, i requires 0 <= i < |s| => LowerChar(s[i]))
  }

  /** `t` sits in `s` starting at index `i`. */
  predicate OccursAt(t: string, s: string, i: nat)
  {
    i + |t| <= |s| && s[i..i + |t|] == t
  }

  /** Python's `t in s` on strings: `t` occurs as a contiguous substring of `s`. */
  predicate Occurs(t: string, s: string)
  {
    exists i: nat | i <= |s| :: OccursAt(t, s, i)
  }

  /** Anything placed between two strings occurs in their concatenation. */
  lemma OccursBetween(a: string, t: string, b: string)
    ensures Occurs(t, a + t + b)
  {
    var s := a + t + b;
    assert s[|a|..|a| + |t|] == t;
    assert OccursAt(t, s, |a|);
  }

  /** Appending text keeps every occurrence. */
  lemma OccursExtend(t: string, s: string, y: string)
    requires Occurs(t, s)
    ensures Occurs(t, s + y)
  {
    var i: nat :| i <= |s| && OccursAt(t, s, i);
    assert (s + y)[i..i + |t|] == s[i..i + |t|];
    assert OccursAt(t, s + y, i);
  }

  /** A string occurs at the start of anything it begins. */
  lemma OccursStart(t: string, rest: string)
    ensures Occurs(t, t + rest)
  {
    assert (t + rest)[0..|t|] == t;
    assert OccursAt(t, t + rest, 0);
  }

  /** Prepending text keeps every occurrence. */
  lemma OccursPrepend(t: string, a: string, s: string)
    requires Occurs(t, s)
    ensures Occurs(t, a + s)
  {
    var i: nat :| i <= |s| && OccursAt(t, s, i);
    assert (a + s)[|a| + i..|a| + i + |t|] == s[i..i + |t|];
    assert OccursAt(t, a + s, |a| + i);
  }

  /** `sep.join(xs)`. */
  function Join(sep: string, xs: seq<string>): (r: string)
    decreases |xs|
  {
    if |xs| == 0 then ""
    else if |xs| == 1 then xs[0]
    else xs[0] + sep + Join(sep, xs[1..])
  }

  /** Joining one more piece appends the separator and that piece, so the
      pieces appear in order with one separator between neighbours. */
  lemma {:induction false} JoinSnoc(sep: string, xs: seq<string>, x: string)
    requires |xs| > 0
    ensures Join(sep, xs + [x]) == Join(sep, xs) + sep + x
    decreases |xs|
  {
    var ys := xs + [x];
    assert ys[0] == xs[0];
    if |xs| == 1 {
      assert ys[1..] == [x];
    } else {
      assert ys[1..] == xs[1..] + [x];
      JoinSnoc(sep, xs[1..], x);
    }
  }

  /** Every joined piece occurs in the joined string. */
  lemma {:induction false} JoinContainsEach(sep: string, xs: seq<string>, k: nat)
    requires k < |xs|
    ensures Occurs(xs[k], Join(sep, xs))
    decreases |xs|
  {
    if |xs| == 1 {
      OccursStart(xs[0], "");
      assert xs[0] + "" == xs[0];
    } else if k == 0 {
      OccursStart(xs[0], sep + Join(sep, xs[1..]));
      assert xs[0] + (sep + Join(sep, xs[1..])) == Join(sep, xs);
    } else {
      JoinContainsEach(sep, xs[1..], k - 1);
      assert xs[1..][k - 1] == xs[k];
      OccursPrepend(xs[k], xs[0] + sep, Join(sep, xs[1..]));
    }
  }
}
