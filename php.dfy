/**
 * The few PHP built-ins the search component relies on, over strings modelled as `seq<char>`:
 * the truthiness of a string, `implode`, `substr`, `str_replace` with one needle and `trim`
 * with one character.
 */
module Php {

  function Min(a: int, b: int): int { if a < b then a else b }

  /** PHP's `empty($s)` (and the falsiness tested by `if ($s)`) for a string: `""` and `"0"`. */
  predicate Falsy(s: string) { s == "" || s == "0" }

  predicate EndsWith(s: string, suffix: string) {
    |suffix| <= |s| && s[|s| - |suffix|..] == suffix
  }

  lemma LastOfAppend(x: string, y: string)
    requires y != []
    ensures |x + y| > 0 && (x + y)[|x + y| - 1] == y[|y| - 1]
  {
  }

  /** Concatenation regrouped, stated on strings so that a proof about long markup can use it in one step. */
  lemma AppendAssoc(x: string, y: string, z: string)
    ensures (x + y) + z == x + (y + z)
  {
  }

  lemma EndsWithAppend(x: string, y: string)
    ensures EndsWith(x + y, y)
  {
    assert (x + y)[|x + y| - |y|..] == y;
  }

  /** `implode($sep, $parts)`. */
  function Implode(sep: string, parts: seq<string>): (r: string)
    ensures parts == [] ==> r == ""
    ensures |parts| == 1 ==> r == parts[0]
    ensures |parts| >= 2 ==> r == parts[0] + sep + Implode(sep, parts[1..])
  {
    if parts == [] then ""
    else if |parts| == 1 then parts[0]
    else parts[0] + sep + Implode(sep, parts[1..])
  }

  /** Appending one more part adds `sep` and that part at the end. */
  lemma {:induction false} ImplodeSnoc(sep: string, parts: seq<string>, last: string)
    requires parts != []
    ensures Implode(sep, parts + [last]) == Implode(sep, parts) + sep + last
  {
    if |parts| == 1 {
      assert parts + [last] == [parts[0], last];
    } else {
      assert (parts + [last])[1..] == parts[1..] + [last];
      ImplodeSnoc(sep, parts[1..], last);
    }
  }

  /**
   * `substr($s, $start, $length)` for a non-negative start and length, as PHP 8 evaluates it:
   * `$length` counts characters from `$start`, and a start at or past the end gives `""`.
   */
  function Substr(s: string, start: nat, length: nat): (r: string)
    ensures |r| <= length
    ensures start >= |s| ==> r == ""
    ensures start < |s| ==> r == s[start..Min(start + length, |s|)]
  {
    if start >= |s| then "" else s[start..Min(start + length, |s|)]
  }

  /** `str_replace($from, $to, $s)` with a single non-empty needle: a left-to-right scan that replaces non-overlapping occurrences. */
  function ReplaceAll(s: string, from: string, to: string): string
    requires from != []
    decreases |s|
  {
    if |s| < |from| then s
    else if s[..|from|] == from then to + ReplaceAll(s[|from|..], from, to)
    else [s[0]] + ReplaceAll(s[1..], from, to)
  }

  /** Replacing every one-character needle by another character leaves none of the needle behind. */
  lemma {:induction false} ReplaceAllRemovesChar(s: string, c: char, d: char)
    requires c != d
    ensures forall i :: 0 <= i < |ReplaceAll(s, [c], [d])| ==> ReplaceAll(s, [c], [d])[i] != c
    ensures |ReplaceAll(s, [c], [d])| == |s|
  {
    if |s| >= 1 {
      ReplaceAllRemovesChar(s[1..], c, d);
    }
  }

  /** `ltrim($s, $c)` for one character. */
  function TrimLeft(s: string, c: char): (r: string)
    ensures r == [] || r[0] != c
    ensures |r| <= |s|
  {
    if s != [] && s[0] == c then TrimLeft(s[1..], c) else s
  }

  /** `rtrim($s, $c)` for one character. */
  function TrimRight(s: string, c: char): (r: string)
    ensures r == [] || r[|r| - 1] != c
    ensures |r| <= |s|
  {
    if s != [] && s[|s| - 1] == c then TrimRight(s[..|s| - 1], c) else s
  }

  /** `rtrim` only ever drops characters from the end. */
  lemma {:induction false} TrimRightIsPrefix(s: string, c: char)
    ensures TrimRight(s, c) <= s
    decreases |s|
  {
    if s != [] && s[|s| - 1] == c {
      TrimRightIsPrefix(s[..|s| - 1], c);
    }
  }

  /** `trim($s, $c)` for one character: both ends stripped of every `c`. */
  function Trim(s: string, c: char): (r: string)
    ensures r == [] || (r[0] != c && r[|r| - 1] != c)
  {
    TrimRightIsPrefix(TrimLeft(s, c), c);
    TrimRight(TrimLeft(s, c), c)
  }

  /** Every character of `s` is `c`. */
  predicate AllChar(s: string, c: char) {
    forall k :: 0 <= k < |s| ==> s[k] == c
  }

  /** `ltrim` keeps a suffix of its input and drops only `c` characters in front of it. */
  lemma {:induction false} TrimLeftIsSuffix(s: string, c: char)
    ensures exists i :: 0 <= i <= |s| && TrimLeft(s, c) == s[i..] && AllChar(s[..i], c)
    decreases |s|
  {
    if s != [] && s[0] == c {
      var u := s[1..];
      TrimLeftIsSuffix(u, c);
      var i :| 0 <= i <= |u| && TrimLeft(u, c) == u[i..] && AllChar(u[..i], c);
      assert TrimLeft(s, c) == TrimLeft(u, c);
      assert u[i..] == s[i + 1..];
      var v := s[..i + 1];
      assert AllChar(v, c) by {
        forall k | 0 <= k < |v| ensures v[k] == c {
          if k > 0 { assert v[k] == u[..i][k - 1]; }
        }
      }
      assert 0 <= i + 1 <= |s| && TrimLeft(s, c) == s[i + 1..] && AllChar(s[..i + 1], c);
    } else {
      assert TrimLeft(s, c) == s[0..] && AllChar(s[..0], c);
    }
  }

  /** `rtrim` keeps a prefix of its input and drops only `c` characters after it. */
  lemma {:induction false} TrimRightIsPrefixCut(s: string, c: char)
    ensures exists j :: 0 <= j <= |s| && TrimRight(s, c) == s[..j] && AllChar(s[j..], c)
    decreases |s|
  {
    if s != [] && s[|s| - 1] == c {
      var p := s[..|s| - 1];
      TrimRightIsPrefixCut(p, c);
      var j :| 0 <= j <= |p| && TrimRight(p, c) == p[..j] && AllChar(p[j..], c);
      assert TrimRight(s, c) == TrimRight(p, c);
      assert p[..j] == s[..j];
      var w := s[j..];
      assert AllChar(w, c) by {
        forall k | 0 <= k < |w| ensures w[k] == c {
          if k < |p| - j { assert w[k] == p[j..][k]; }
        }
      }
      assert 0 <= j <= |s| && TrimRight(s, c) == s[..j] && AllChar(s[j..], c);
    } else {
      assert TrimRight(s, c) == s[..|s|] && AllChar(s[|s|..], c);
    }
  }

  /** `trim` keeps a slice of its input and cuts only `c` characters off either end. */
  lemma TrimIsSlice(s: string, c: char)
    ensures exists i, j :: 0 <= i <= j <= |s| && Trim(s, c) == s[i..j] && AllChar(s[..i], c) && AllChar(s[j..], c)
  {
    TrimLeftIsSuffix(s, c);
    var i :| 0 <= i <= |s| && TrimLeft(s, c) == s[i..] && AllChar(s[..i], c);
    TrimRightIsPrefixCut(s[i..], c);
    var m :| 0 <= m <= |s[i..]| && TrimRight(s[i..], c) == s[i..][..m] && AllChar(s[i..][m..], c);
    SliceOfSlice(s, i, m);
  }

  /** A prefix or suffix of a suffix is a slice of the original. */
  lemma SliceOfSlice(s: string, i: nat, m: nat)
    requires i + m <= |s|
    ensures s[i..][..m] == s[i..i + m] && s[i..][m..] == s[i + m..]
  {
  }

  /** A string that neither starts nor ends with `c` is left alone by `trim`. */
  lemma TrimOfTrimmed(s: string, c: char)
    requires s == [] || (s[0] != c && s[|s| - 1] != c)
    ensures Trim(s, c) == s
  {
  }

  /** `trim` removes exactly one added `c` on each side of a string that has none at either end. */
  lemma {:induction false} TrimWrapped(t: string, c: char)
    requires t == [] || (t[0] != c && t[|t| - 1] != c)
    ensures Trim([c] + t + [c], c) == t
  {
    var w := [c] + t + [c];
    assert w[0] == c && w[1..] == t + [c];
    assert TrimLeft(w, c) == TrimLeft(t + [c], c);
    if t == [] {
      assert t + [c] == [c];
      assert TrimLeft([c], c) == TrimLeft([], c);
      assert TrimLeft(w, c) == [];
    } else {
      var u := t + [c];
      assert u[0] != c;
      assert TrimLeft(u, c) == u;
      assert u[|u| - 1] == c && u[..|u| - 1] == t;
      assert TrimRight(u, c) == TrimRight(t, c);
      assert TrimRight(t, c) == t;
    }
  }

  function DigitChar(d: nat): char
    requires d < 10
  {
    "0123456789"[d]
  }

  /** The decimal digits of a natural number, as `(string)(int)$n` prints them. */
  function NatToString(n: nat): (r: string)
    ensures r != []
    ensures forall i :: 0 <= i < |r| ==> '0' <= r[i] <= '9'
    decreases n
  {
    if n < 10 then [DigitChar(n)] else NatToString(n / 10) + [DigitChar(n % 10)]
  }

  /** `(string)(int)$n` for any integer. */
  function IntToString(n: int): (r: string)
    ensures r != []
  {
    if n < 0 then "-" + NatToString(-n) else NatToString(n)
  }
}
