/**
 * Python's `str.strip()` (with no argument) and `str.join`, on strings as
 * sequences of characters.
 */
module Text {

  /** The characters for which Python's `str.isspace()` holds. */
  predicate IsSpace(c: char) {
    c == ' ' || '\t' <= c <= '\r' || '\U{1c}' <= c <= '\U{1f}' ||
    c == '\U{85}' || c == '\U{a0}' || c == '\U{1680}' ||
    '\U{2000}' <= c <= '\U{200a}' || c == '\U{2028}' || c == '\U{2029}' ||
    c == '\U{202f}' || c == '\U{205f}' || c == '\U{3000}'
  }

  predicate AllSpace(s: string) {
    forall i :: 0 <= i < |s| ==> IsSpace(s[i])
  }

  /** The string begins and ends with a non-space character, or is empty. */
  predicate Stripped(s: string) {
    s == [] || (!IsSpace(s[0]) && !IsSpace(s[|s| - 1]))
  }

  /** `s` without its longest all-space prefix (`str.lstrip()`). */
  function TrimStart(s: string): string {
    if s != [] && IsSpace(s[0]) then TrimStart(s[1..]) else s
  }

  /** `s` without its longest all-space suffix (`str.rstrip()`). */
  function TrimEnd(s: string): string {
    if s != [] && IsSpace(s[|s| - 1]) then TrimEnd(s[..|s| - 1]) else s
  }

  /**
   * `str.strip()`: both the leading and the trailing run of spaces removed.
   * The result has no space at either end.
   */
  function Trim(s: string): (r: string)
    ensures Stripped(r)
  {
    TrimStartSpec(s);
    TrimEndSpec(TrimStart(s));
    TrimEnd(TrimStart(s))
  }

  /** strip leaves nothing exactly when `s` is all spaces. */
  lemma TrimEmpty(s: string)
    ensures Trim(s) == [] <==> AllSpace(s)
  {
    var t := TrimStart(s);
    TrimStartSpec(s);
    TrimEndSpec(t);
    assert t != [] ==> !IsSpace(s[|s| - |t|]);
  }

  /** lstrip keeps a suffix of `s`: it removes only spaces, and all of them up to the first non-space. */
  lemma {:induction false} TrimStartSpec(s: string)
    ensures var r := TrimStart(s);
      |r| <= |s| && r == s[|s| - |r|..] &&
      (forall i :: 0 <= i < |s| - |r| ==> IsSpace(s[i])) &&
      (r == [] || !IsSpace(r[0]))
    decreases |s|
  {
    if s != [] && IsSpace(s[0]) {
      TrimStartSpec(s[1..]);
    }
  }

  /** rstrip keeps a prefix of `s`: it removes only spaces, and all of them back to the last non-space. */
  lemma {:induction false} TrimEndSpec(s: string)
    ensures var r := TrimEnd(s);
      |r| <= |s| && r == s[..|r|] &&
      (forall i :: |r| <= i < |s| ==> IsSpace(s[i])) &&
      (r == [] || !IsSpace(r[|r| - 1]))
    decreases |s|
  {
    if s != [] && IsSpace(s[|s| - 1]) {
      TrimEndSpec(s[..|s| - 1]);
    }
  }

  /**
   * Stripping a string that opens with `w`, where `w` starts and ends with a
   * non-space character, keeps `w` at its start.
   */
  lemma TrimKeepsPrefix(s: string, w: string)
    requires w != [] && !IsSpace(w[0]) && !IsSpace(w[|w| - 1]) && w <= s
    ensures w <= Trim(s)
  {
    assert s[0] == w[0];
    assert TrimStart(s) == s;
    TrimEndSpec(s);
  }

  /** Stripping an already stripped string changes nothing. */
  lemma StrippedIsFixed(s: string)
    requires Stripped(s)
    ensures Trim(s) == s
  {
  }

  /** Stripping twice is stripping once. */
  lemma TrimIdempotent(s: string)
    ensures Trim(Trim(s)) == Trim(s)
  {
    StrippedIsFixed(Trim(s));
  }

  /**
   * Stripping `a` followed by spaces, where `a` starts and ends with a
   * non-space character, gives back exactly `a`.
   */
  lemma TrimTrailingSpaces(a: string, b: string)
    requires a != [] && !IsSpace(a[0]) && !IsSpace(a[|a| - 1])
    requires AllSpace(b)
    ensures Trim(a + b) == a
  {
    var s := a + b;
    assert TrimStart(s) == s;
    var r := TrimEnd(s);
    TrimEndSpec(s);
    assert !IsSpace(s[|a| - 1]);
    assert forall i :: |a| <= i < |s| ==> IsSpace(s[i]) by {
      forall i | |a| <= i < |s| ensures IsSpace(s[i]) {
        assert s[i] == b[i - |a|];
      }
    }
    assert |r| == |a|;
    assert r == s[..|a|] == a;
  }

  /** The lengths of the parts added up. */
  function TotalLength(parts: seq<string>): nat {
    if parts == [] then 0 else TotalLength(parts[..|parts| - 1]) + |parts[|parts| - 1]|
  }

  /** Python's `sep.join(parts)`: every part once, in order, with one separator between neighbours. */
  function Join(parts: seq<string>, sep: string): (r: string)
    ensures |r| == TotalLength(parts) + if parts == [] then 0 else (|parts| - 1) * |sep|
  {
    if |parts| == 0 then ""
    else if |parts| == 1 then parts[0]
    else Join(parts[..|parts| - 1], sep) + sep + parts[|parts| - 1]
  }

  /** The joined string opens with the first part and closes with the last. */
  lemma {:induction false} JoinEnds(parts: seq<string>, sep: string)
    requires parts != []
    ensures var r := Join(parts, sep); var last := parts[|parts| - 1];
      parts[0] <= r && |last| <= |r| && r[|r| - |last|..] == last
    decreases |parts|
  {
    if |parts| > 1 {
      JoinEnds(parts[..|parts| - 1], sep);
    }
  }

  /** The first two parts open the joined string, with the separator between them. */
  lemma {:induction false} JoinStartsWithFirstTwo(parts: seq<string>, sep: string)
    requires |parts| >= 2
    ensures parts[0] + sep + parts[1] <= Join(parts, sep)
    decreases |parts|
  {
    if |parts| > 2 {
      var init := parts[..|parts| - 1];
      JoinStartsWithFirstTwo(init, sep);
      assert init[0] == parts[0] && init[1] == parts[1];
    } else {
      assert parts[..1] == [parts[0]];
    }
  }

  /** Joining two non-empty runs of parts is joining each and putting one separator between. */
  lemma {:induction false} JoinAppend(p: seq<string>, q: seq<string>, sep: string)
    requires p != [] && q != []
    ensures Join(p + q, sep) == Join(p, sep) + sep + Join(q, sep)
    decreases |q|
  {
    var pq := p + q;
    var last := q[|q| - 1];
    assert pq[|pq| - 1] == last;
    if |q| == 1 {
      assert pq[..|pq| - 1] == p;
    } else {
      var qi := q[..|q| - 1];
      assert pq[..|pq| - 1] == p + qi;
      JoinAppend(p, qi, sep);
      calc {
        Join(pq, sep);
        Join(p + qi, sep) + sep + last;
        (Join(p, sep) + sep + Join(qi, sep)) + sep + last;
        Join(p, sep) + sep + (Join(qi, sep) + sep + last);
        Join(p, sep) + sep + Join(q, sep);
      }
    }
  }

  /**
   * Stripping a string whose last line `t` ends in a newline, where the text
   * `a` before that line starts and ends with a non-space character, removes
   * only the final newline, or both newlines when `t` is empty.
   */
  lemma StripLastLine(j: string, a: string, t: string)
    requires a != [] && !IsSpace(a[0]) && !IsSpace(a[|a| - 1])
    requires Stripped(t)
    requires j == a + "\n" + t + "\n"
    ensures j == Trim(j) + (if t == [] then "\n\n" else "\n")
  {
    if t == [] {
      assert j == a + "\n\n";
      TrimTrailingSpaces(a, "\n\n");
    } else {
      var b := a + "\n" + t;
      assert j == b + "\n";
      assert b[0] == a[0] && b[|b| - 1] == t[|t| - 1];
      TrimTrailingSpaces(b, "\n");
    }
  }

  /**
   * Two lines `a` and `b` joined by a newline keep `a`'s first and `b`'s last
   * character at the ends, and whatever follows keeps `a`'s first character first.
   */
  lemma TwoLineEnds(a: string, b: string, rest: string)
    requires a != [] && b != []
    ensures var head := a + "\n" + b;
      head != [] && head[|head| - 1] == b[|b| - 1] && (head + rest)[0] == a[0]
  {
  }

  /**
   * A string that ends with `head`, a newline, `t` and a newline is the text
   * before that last line's `t`, then `t` between newlines; that text ends
   * where `head` ends.
   */
  lemma SplitLastLine(j: string, head: string, t: string)
    requires head != [] && |head| + |t| + 2 <= |j|
    requires j[|j| - |head| - |t| - 2..] == head + "\n" + t + "\n"
    ensures var a := j[..|j| - |t| - 2];
      j == a + "\n" + t + "\n" && a != [] && a[0] == j[0] && a[|a| - 1] == head[|head| - 1]
  {
    var a := j[..|j| - |t| - 2];
    var last := head + "\n" + t + "\n";
    assert j[|j| - |t| - 3] == last[|head| - 1];
    assert j[|j| - |t| - 2..] == "\n" + t + "\n" by {
      assert last[|head|..] == "\n" + t + "\n";
    }
    assert j == a + j[|j| - |t| - 2..];
  }

  /** Joining splits at any inner position into the two joined halves and a separator. */
  lemma JoinSplit(parts: seq<string>, sep: string, k: nat)
    requires 0 < k < |parts|
    ensures Join(parts, sep) == Join(parts[..k], sep) + sep + Join(parts[k..], sep)
  {
    assert parts == parts[..k] + parts[k..];
    JoinAppend(parts[..k], parts[k..], sep);
  }

  /**
   * Around an inner position k: the parts before k joined, the separator, the
   * parts from k joined; the first half ends with part k - 1 and the second
   * half opens with part k.
   */
  lemma JoinAround(parts: seq<string>, sep: string, k: nat)
    requires 0 < k < |parts|
    ensures var before, after := Join(parts[..k], sep), Join(parts[k..], sep);
      Join(parts, sep) == before + sep + after &&
      |parts[k - 1]| <= |before| && before[|before| - |parts[k - 1]|..] == parts[k - 1] &&
      parts[k] <= after
  {
    var pre, post := parts[..k], parts[k..];
    JoinSplit(parts, sep, k);
    JoinEnds(pre, sep);
    JoinEnds(post, sep);
    assert pre[|pre| - 1] == parts[k - 1] && post[0] == parts[k];
  }

  /** A string opens every string that extends it by three further pieces. */
  lemma PrefixOfConcat(a: string, b: string, c: string, d: string)
    ensures a <= a + b + c + d && |a + b + c + d| == |a| + |b| + |c| + |d|
  {
    assert (a + b + c + d)[..|a|] == a;
  }

  /** Putting the same string in front keeps one string a prefix of another. */
  lemma PrefixAfterCommon(x: string, y: string, z: string)
    requires y <= z
    ensures x + y <= x + z
  {
    assert (x + z)[..|x + y|] == x + y;
  }

  /** A string ends with the last character of any non-empty suffix of it. */
  lemma LastOfSuffix(s: string, t: string)
    requires t != [] && |t| <= |s| && s[|s| - |t|..] == t
    ensures s[|s| - 1] == t[|t| - 1]
  {
    assert s[|s| - |t|..][|t| - 1] == s[|s| - 1];
  }

  lemma PrefixTransitive(a: string, b: string, c: string)
    requires a <= b && b <= c
    ensures a <= c
  {
    assert c[..|a|] == b[..|a|];
  }

  /**
   * When `j` is `doc` followed by a `tail`, a prefix `p` of a prefix `q` of
   * `j` that leaves at least `|tail|` characters of `q` after it is already a
   * prefix of `doc`.
   */
  lemma PrefixBeforeTail(j: string, doc: string, tail: string, p: string, q: string)
    requires j == doc + tail && q <= j && p <= q && |p| + |tail| <= |q|
    ensures p <= doc
  {
    assert |p| <= |doc|;
    forall i | 0 <= i < |p|
      ensures p[i] == doc[i]
    {
      assert p[i] == q[i] == j[i];
    }
  }
}
