/**
 * The JavaScript string operations the core relies on, restricted to ASCII:
 * `trim`, `toLowerCase`/`toUpperCase`, `includes`, `split` on one character and
 * `join`.
 */
module Text {

  /** The ASCII characters `String.prototype.trim` removes. */
  predicate IsWhite(c: char)
  {
    c == ' ' || c == '\t' || c == '\n' || c == '\r' || c == '\U{000B}' || c == '\U{000C}'
  }

  function TrimStart(s: string): (r: string)
    ensures |r| <= |s| && r == s[|s| - |r|..]
    ensures r == "" || !IsWhite(r[0])
    ensures forall i :: 0 <= i < |s| - |r| ==> IsWhite(s[i])
    ensures forall c :: c in r ==> c in s
  {
    if |s| > 0 && IsWhite(s[0]) then TrimStart(s[1..]) else s
  }

  function TrimEnd(s: string): (r: string)
    ensures |r| <= |s| && r == s[..|r|]
    ensures r == "" || !IsWhite(r[|r| - 1])
    ensures forall i :: |r| <= i < |s| ==> IsWhite(s[i])
    ensures forall c :: c in r ==> c in s
  {
    if |s| > 0 && IsWhite(s[|s| - 1]) then TrimEnd(s[..|s| - 1]) else s
  }

  /** `s.trim()`: the longest infix of `s` that neither starts nor ends with white space. */
  function Trim(s: string): (r: string)
    ensures |r| <= |s| && Trimmed(r)
    ensures forall c :: c in r ==> c in s
    ensures exists i, j :: 0 <= i <= j <= |s| && r == s[i..j] && OnlyWhiteOutside(s, i, j)
  {
    var t := TrimStart(s);
    var r := TrimEnd(t);
    var i := |s| - |t|;
    assert r == s[i..i + |r|] && OnlyWhiteOutside(s, i, i + |r|) by {
      assert t == s[i..];
      forall k | i + |r| <= k < |s| ensures IsWhite(s[k]) {
        assert s[k] == t[k - i];
      }
    }
    r
  }

  /** Every character before index `i` and from index `j` on is white space. */
  predicate OnlyWhiteOutside(s: string, i: int, j: int)
    requires 0 <= i <= j <= |s|
  {
    (forall k :: 0 <= k < i ==> IsWhite(s[k])) && (forall k :: j <= k < |s| ==> IsWhite(s[k]))
  }

  /** A string with nothing for `trim` to remove. */
  predicate Trimmed(s: string)
  {
    s == "" || (!IsWhite(s[0]) && !IsWhite(s[|s| - 1]))
  }

  /** `s.trim().length > 0` fails exactly when every character is white space. */
  lemma {:induction false} BlankIffAllWhite(s: string)
    ensures Trim(s) == "" <==> forall i :: 0 <= i < |s| ==> IsWhite(s[i])
  {
    var t := TrimStart(s);
    if !forall i :: 0 <= i < |s| ==> IsWhite(s[i]) {
      var k :| 0 <= k < |s| && !IsWhite(s[k]);
      assert t[k - (|s| - |t|)] == s[k];
    }
  }

  /** Trimming a trimmed string changes nothing. */
  lemma TrimOfTrimmed(s: string)
    requires Trimmed(s)
    ensures Trim(s) == s
  {
  }

  /** Trimming the text after ", " in a joined list gives back the element. */
  lemma TrimAfterSpace(s: string)
    requires Trimmed(s)
    ensures Trim(" " + s) == s
  {
    assert (" " + s)[1..] == s;
  }

  function LowerChar(c: char): char
  {
    if 'A' <= c <= 'Z' then (c as int + 32) as char else c
  }

  function UpperChar(c: char): char
  {
    if 'a' <= c <= 'z' then (c as int - 32) as char else c
  }

  /** `s.toLowerCase()` on ASCII text. */
  function Lower(s: string): (r: string)
    ensures |r| == |s|
    ensures forall i :: 0 <= i < |s| ==> r[i] == LowerChar(s[i])
  {
    seq(|s|, i requires 0 <= i < |s| => LowerChar(s[i]))
  }

  /** `s.toUpperCase()` on ASCII text: no lower-case ASCII letter is left. */
  function Upper(s: string): (r: string)
    ensures |r| == |s|
    ensures forall i :: 0 <= i < |s| ==> r[i] == UpperChar(s[i]) && !('a' <= r[i] <= 'z')
  {
    seq(|s|, i requires 0 <= i < |s| => UpperChar(s[i]))
  }

  /** `s.includes(sub)`. */
  predicate Contains(s: string, sub: string)
  {
    exists i :: 0 <= i <= |s| && StartsWith(s[i..], sub)
  }

  predicate StartsWith(s: string, prefix: string)
  {
    |prefix| <= |s| && s[..|prefix|] == prefix
  }

  /** `s.split(sep)`: the pieces between the separators, one more piece than separators. */
  function Split(s: string, sep: char): (parts: seq<string>)
    ensures |parts| >= 1
    ensures sep !in s ==> parts == [s]
    ensures forall i :: 0 <= i < |parts| ==> sep !in parts[i]
  {
    if |s| == 0 then [""]
    else
      var rest := Split(s[1..], sep);
      assert sep !in s ==> [s[0]] + s[1..] == s && sep !in s[1..];
      if s[0] == sep then [""] + rest else [[s[0]] + rest[0]] + rest[1..]
  }

  /** Splitting at the first separator peels off the text before it. */
  lemma {:induction false} SplitAtFirst(a: string, sep: char, b: string)
    requires sep !in a
    ensures Split(a + [sep] + b, sep) == [a] + Split(b, sep)
  {
    var s := a + [sep] + b;
    if |a| == 0 {
      assert s[1..] == b;
    } else {
      assert s[1..] == a[1..] + [sep] + b;
      SplitAtFirst(a[1..], sep, b);
      assert [s[0]] + a[1..] == a;
    }
  }

  /** `xs.join(sep)`. */
  function Join(xs: seq<string>, sep: string): string
  {
    if |xs| == 0 then ""
    else if |xs| == 1 then xs[0]
    else xs[0] + sep + Join(xs[1..], sep)
  }

  /** `parts.filter(s => s)`: the non-empty strings, in order. */
  function DropEmpty(parts: seq<string>): (r: seq<string>)
    ensures forall s :: s in r <==> s in parts && s != ""
    ensures forall i :: 0 <= i < |r| ==> r[i] != ""
    ensures |r| <= |parts|
  {
    if |parts| == 0 then []
    else (if parts[0] == "" then [] else [parts[0]]) + DropEmpty(parts[1..])
  }

  /** `filter` keeps the order: dropping the empty parts of two lists in turn is dropping them from the whole. */
  lemma {:induction false} DropEmptyAppend(a: seq<string>, b: seq<string>)
    ensures DropEmpty(a + b) == DropEmpty(a) + DropEmpty(b)
  {
    if |a| == 0 {
      assert a + b == b;
    } else {
      assert (a + b)[1..] == a[1..] + b;
      DropEmptyAppend(a[1..], b);
    }
  }

  /** Dropping the empty parts of a list without one changes nothing. */
  lemma {:induction false} DropEmptyOfNonEmpty(xs: seq<string>)
    requires forall i :: 0 <= i < |xs| ==> xs[i] != ""
    ensures DropEmpty(xs) == xs
  {
    if |xs| > 0 {
      DropEmptyOfNonEmpty(xs[1..]);
      assert [xs[0]] + xs[1..] == xs;
    }
  }
}
