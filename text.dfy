/**
 * The Python string operations the scraper relies on, over ASCII text:
 * `\d`, `\s`, `str.lower`, `w in s`, `str.split('\n')` and `sep.join(...)`.
 */
module Text {
  import opened Wrappers

  /** Python truthiness of a string variable that may be `None`: neither `None` nor empty. */
  predicate Truthy(o: Option<string>) {
    o.Some? && o.value != ""
  }

  /** Python's `\d`, restricted to the ASCII digits. */
  predicate IsDigit(c: char) {
    '0' <= c <= '9'
  }

  predicate AllDigits(s: string) {
    forall i :: 0 <= i < |s| ==> IsDigit(s[i])
  }

  /**
   * Python's `\s` on the ASCII range: space, tab, line feed, vertical tab,
   * form feed, carriage return and the four separators 0x1C-0x1F.
   */
  predicate IsSpace(c: char) {
    c == ' ' || '\t' <= c <= '\r' || 28 <= c as int <= 31
  }

  predicate AllSpaces(s: string) {
    forall i :: 0 <= i < |s| ==> IsSpace(s[i])
  }

  /** `str.lower` on one character, with ASCII case folding. */
  function LowerChar(c: char): char {
    if 'A' <= c <= 'Z' then (c as int + 32) as char else c
  }

  /** `str.lower`, with ASCII case folding. */
  function Lower(s: string): string {
    seq(|s|, i requires 0 <= i < |s| => LowerChar(s[i]))
  }

  /** `w` occurs in `s` starting at position `i`. */
  predicate OccursAt(s: string, w: string, i: nat) {
    i + |w| <= |s| && s[i..i + |w|] == w
  }

  /** Python's `w in s` on strings: `w` occurs in `s` at some position. */
  predicate Contains(s: string, w: string) {
    exists i: nat | i <= |s| :: OccursAt(s, w, i)
  }

  lemma ContainsSlice(s: string, i: nat, j: nat)
    requires i <= j <= |s|
    ensures Contains(s, s[i..j])
  {
    assert OccursAt(s, s[i..j], i);
  }

  lemma {:induction false} ContainsTransitive(a: string, b: string, c: string)
    requires Contains(a, b) && Contains(b, c)
    ensures Contains(a, c)
  {
    var i: nat :| i <= |a| && OccursAt(a, b, i);
    var j: nat :| j <= |b| && OccursAt(b, c, j);
    assert a[i..i + |b|] == b;
    assert b[j..j + |c|] == c;
    assert a[i + j..i + j + |c|] == c by {
      forall k | 0 <= k < |c| ensures a[i + j + k] == c[k] {
        assert b[j + k] == c[k];
        assert a[i + (j + k)] == b[j + k];
      }
    }
    assert OccursAt(a, c, i + j);
  }

  lemma SliceOfSlice(s: string, i: nat, j: nat, a: nat, b: nat)
    requires i <= j <= |s| && a <= b <= j - i
    ensures s[i..j][a..b] == s[i + a..i + b]
  {
    assert forall k :: 0 <= k < b - a ==> s[i..j][a..b][k] == s[i + a + k];
  }

  lemma CharAtPosition(s: string, w: string, i: nat, k: nat)
    requires OccursAt(s, w, i) && i <= k < i + |w|
    ensures s[k] in w
  {
    assert s[k] == w[k - i];
  }

  /**
   * `s.split(sep)` for a one-character separator: cuts `s` at every
   * occurrence of `sep`, so that empty pieces are kept and the result is
   * never empty.
   */
  function Split(s: string, sep: char): (parts: seq<string>)
    ensures |parts| == multiset(s)[sep] + 1
    ensures forall k :: 0 <= k < |parts| ==> sep !in parts[k]
    decreases |s|
  {
    if s == [] then [""]
    else
      assert s == [s[0]] + s[1..];
      var rest := Split(s[1..], sep);
      if s[0] == sep then [""] + rest
      else [[s[0]] + rest[0]] + rest[1..]
  }

  /** `sep.join(parts)`. */
  function Join(parts: seq<string>, sep: string): string
    decreases |parts|
  {
    if |parts| == 0 then ""
    else if |parts| == 1 then parts[0]
    else parts[0] + sep + Join(parts[1..], sep)
  }

  /** Joining the pieces of a split with the separator gives back the text. */
  lemma {:induction false} JoinSplit(s: string, sep: char)
    ensures Join(Split(s, sep), [sep]) == s
    decreases |s|
  {
    if s != [] {
      JoinSplit(s[1..], sep);
      var rest := Split(s[1..], sep);
      assert s == [s[0]] + s[1..];
      if s[0] == sep {
        JoinEmptyFirst(rest, [sep]);
      } else {
        JoinPrepend(s[0], rest, [sep]);
      }
    }
  }

  lemma JoinEmptyFirst(parts: seq<string>, sep: string)
    requires |parts| > 0
    ensures Join([""] + parts, sep) == sep + Join(parts, sep)
  {
    assert ([""] + parts)[1..] == parts;
  }

  lemma JoinPrepend(c: char, parts: seq<string>, sep: string)
    requires |parts| > 0
    ensures Join([[c] + parts[0]] + parts[1..], sep) == [c] + Join(parts, sep)
  {
    var q := [[c] + parts[0]] + parts[1..];
    if |parts| > 1 {
      assert q[1..] == parts[1..];
    }
  }

  /** Every piece of a join occurs in the joined text. */
  lemma {:induction false} PartInJoin(parts: seq<string>, sep: string, k: nat)
    requires k < |parts|
    ensures Contains(Join(parts, sep), parts[k])
    decreases |parts|
  {
    var joined := Join(parts, sep);
    if |parts| == 1 {
      ContainsSlice(joined, 0, |joined|);
      assert joined[0..|joined|] == joined;
    } else if k == 0 {
      ContainsSlice(joined, 0, |parts[0]|);
      assert joined[0..|parts[0]|] == parts[0];
    } else {
      var tail := Join(parts[1..], sep);
      PartInJoin(parts[1..], sep, k - 1);
      var off := |parts[0]| + |sep|;
      ContainsSlice(joined, off, |joined|);
      assert joined[off..|joined|] == tail;
      ContainsTransitive(joined, tail, parts[k]);
    }
  }

  /** Every piece of a join occurs in the joined text, all at once. */
  lemma JoinHoldsParts(parts: seq<string>, sep: string)
    ensures forall k :: 0 <= k < |parts| ==> Contains(Join(parts, sep), parts[k])
  {
    forall k | 0 <= k < |parts| ensures Contains(Join(parts, sep), parts[k]) {
      PartInJoin(parts, sep, k);
    }
  }

  /**
   * A text without the separator character that occurs in a join of
   * non-empty many pieces occurs in one of the pieces.
   */
  lemma {:induction false} ContainedInOnePart(parts: seq<string>, sep: char, w: string)
    requires |parts| > 0
    requires sep !in w
    requires Contains(Join(parts, [sep]), w)
    ensures exists k :: 0 <= k < |parts| && Contains(parts[k], w)
    decreases |parts|
  {
    if |parts| > 1 {
      var head := parts[0];
      var tail := Join(parts[1..], [sep]);
      var joined := Join(parts, [sep]);
      assert joined == head + [sep] + tail;
      var i: nat :| i <= |joined| && OccursAt(joined, w, i);
      assert joined[i..i + |w|] == w;
      if i + |w| <= |head| {
        assert OccursAt(head, w, i);
        assert Contains(parts[0], w);
      } else if i > |head| {
        assert tail[i - |head| - 1..i - |head| - 1 + |w|] == w by {
          assert joined[|head| + 1..] == tail;
        }
        assert OccursAt(tail, w, i - |head| - 1);
        ContainedInOnePart(parts[1..], sep, w);
        var k :| 0 <= k < |parts[1..]| && Contains(parts[1..][k], w);
        assert Contains(parts[k + 1], w);
      } else {
        // w would then hold the separator at position |head| - i
        CharAtPosition(joined, w, i, |head|);
        assert false;
      }
    } else {
      assert Join(parts, [sep]) == parts[0];
    }
  }
}
