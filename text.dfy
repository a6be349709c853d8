/** String helpers that stand for the Python `str` methods the agent calls:
    `startswith`, `in`, `strip('/')`, `split('=', 1)`, `replace` and `join`. */
module Text {

  import opened Wrappers

  /** `s.startswith(p)` */
  predicate StartsWith(s: string, p: string) {
    |p| <= |s| && s[..|p|] == p
  }

  /** p occurs in s at position i. */
  predicate OccursAt(s: string, p: string, i: int) {
    0 <= i <= |s| - |p| && s[i..i + |p|] == p
  }

  /** `p in s`: p occurs somewhere in s as a contiguous piece. */
  predicate Contains(s: string, p: string) {
    exists i :: 0 <= i <= |s| && OccursAt(s, p, i)
  }

  /** Every character of s is one of cs. */
  predicate AllIn(s: string, cs: set<char>) {
    forall k :: 0 <= k < |s| ==> s[k] in cs
  }

  /** How many characters from cs s starts with. */
  function Leading(s: string, cs: set<char>): (n: nat)
    ensures n <= |s| && AllIn(s[..n], cs) && (n == |s| || s[n] !in cs)
  {
    if s != [] && s[0] in cs then
      var n := Leading(s[1..], cs);
      assert s[..n + 1] == [s[0]] + s[1..][..n];
      n + 1
    else 0
  }

  /** How many characters from cs s ends with. */
  function Trailing(s: string, cs: set<char>): (n: nat)
    ensures n <= |s| && AllIn(s[|s| - n..], cs) && (n == |s| || s[|s| - n - 1] !in cs)
  {
    if s != [] && s[|s| - 1] in cs then
      var p := s[..|s| - 1];
      var n := Trailing(p, cs);
      assert s[|s| - (n + 1)..] == p[|p| - n..] + [s[|s| - 1]];
      n + 1
    else 0
  }

  /** `s.strip(chars)`: removes the characters in cs from both ends of s. */
  function Strip(s: string, cs: set<char>): (r: string)
    ensures r == [] || (r[0] !in cs && r[|r| - 1] !in cs)
  {
    var t := s[Leading(s, cs)..];
    var n := Trailing(t, cs);
    assert n < |t| ==> t[..|t| - n][0] == t[0];
    t[..|t| - n]
  }

  /** The result of Strip is the middle piece of s left between two runs of
      characters from cs, and neither starts nor ends with one of them. */
  lemma StripShape(s: string, cs: set<char>) returns (i: nat, j: nat)
    ensures i <= j <= |s| && Strip(s, cs) == s[i..j]
    ensures AllIn(s[..i], cs) && AllIn(s[j..], cs)
    ensures i < j ==> s[i] !in cs && s[j - 1] !in cs
  {
    i := Leading(s, cs);
    var t := s[i..];
    var n := Trailing(t, cs);
    j := |s| - n;
    assert t[..|t| - n] == s[i..j];
    assert t[|t| - n..] == s[j..];
    if i < j {
      assert t[0] == s[i];
      assert t[|t| - n - 1] == s[j - 1];
    }
  }

  /** StripShape's witnesses as an existential, for use inside functions. */
  lemma StripPiece(s: string, cs: set<char>)
    ensures exists i, j :: 0 <= i <= j <= |s| && Strip(s, cs) == s[i..j] && AllIn(s[..i], cs) && AllIn(s[j..], cs)
  {
    var i, j := StripShape(s, cs);
  }

  /** Strip leaves alone a string that neither starts nor ends with one of cs. */
  lemma StripUntouched(s: string, cs: set<char>)
    requires s != [] && s[0] !in cs && s[|s| - 1] !in cs
    ensures Strip(s, cs) == s
  {
    assert Leading(s, cs) == 0;
    assert s[0..] == s;
    assert Trailing(s, cs) == 0;
  }

  /** A run of characters from cs followed by a character outside cs: Leading
      counts exactly the run. */
  lemma {:induction false} LeadingOfRun(w: string, d: string, cs: set<char>)
    requires AllIn(w, cs) && d != [] && d[0] !in cs
    ensures Leading(w + d, cs) == |w|
  {
    if w == [] {
      assert w + d == d;
    } else {
      LeadingOfRun(w[1..], d, cs);
      assert (w + d)[0] == w[0];
      assert (w + d)[1..] == w[1..] + d;
    }
  }

  /** Position of the first occurrence of c in s, if any. */
  function IndexOf(s: string, c: char): (r: Option<nat>)
    ensures r.None? <==> c !in s
    ensures r.Some? ==> r.value < |s| && s[r.value] == c && c !in s[..r.value]
  {
    if s == [] then None
    else if s[0] == c then Some(0)
    else
      match IndexOf(s[1..], c)
      case None => None
      case Some(i) =>
        assert s[..i + 1] == [s[0]] + s[1..][..i];
        Some(i + 1)
  }

  /** Joins the parts with sep between consecutive parts: `sep.join(parts)`. */
  function Join(parts: seq<string>, sep: char): string {
    if parts == [] then ""
    else if |parts| == 1 then parts[0]
    else parts[0] + [sep] + Join(parts[1..], sep)
  }

  /** Cuts s at every occurrence of sep: `s.split(sep)`. */
  function Split(s: string, sep: char): seq<string>
    decreases |s|
  {
    match IndexOf(s, sep)
    case None => [s]
    case Some(i) => [s[..i]] + Split(s[i + 1..], sep)
  }

  /** Splitting a join gives the parts back, provided no part holds the separator. */
  lemma {:induction false} SplitJoin(parts: seq<string>, sep: char)
    requires parts != []
    requires forall k :: 0 <= k < |parts| ==> sep !in parts[k]
    ensures Split(Join(parts, sep), sep) == parts
  {
    if |parts| == 1 {
      assert IndexOf(parts[0], sep).None?;
    } else {
      var rest := Join(parts[1..], sep);
      var s := parts[0] + [sep] + rest;
      var i := |parts[0]|;
      assert s[..i] == parts[0];
      assert s[i] == sep;
      assert sep !in s[..i];
      assert IndexOf(s, sep) == Some(i);
      assert s[i + 1..] == rest;
      SplitJoin(parts[1..], sep);
    }
  }
}
