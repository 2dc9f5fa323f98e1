/** Text helpers shared by the client model: searching a string for a
    character, joining and splitting on a separator, and rendering integers
    in decimal the way Ruby's Integer#to_s does. */
module Strings {

  /** The index of the first occurrence of `c` in `s`, or `|s|` when `c`
      does not occur. */
  function FirstIndex(s: string, c: char): (k: nat)
    ensures k <= |s|
    ensures k < |s| ==> s[k] == c
    ensures forall j :: 0 <= j < k ==> s[j] != c
    ensures k == |s| <==> c !in s
    decreases |s|
  {
    if |s| == 0 then 0
    else if s[0] == c then 0
    else 1 + FirstIndex(s[1..], c)
  }

  /** `FirstIndex` on a string that is `a` followed by `c` finds the end of
      `a` when `c` does not occur in `a`. */
  lemma FirstIndexAfter(a: string, c: char, b: string)
    requires c !in a
    ensures FirstIndex(a + [c] + b, c) == |a|
  {
    var s := a + [c] + b;
    assert s[|a|] == c;
  }

  /** Ruby's Array#join: the parts with `sep` between neighbours. */
  function Join(parts: seq<string>, sep: string): (r: string)
    ensures forall i :: 0 <= i < |parts| ==> |parts[i]| <= |r|
    decreases |parts|
  {
    if |parts| == 0 then ""
    else if |parts| == 1 then parts[0]
    else parts[0] + sep + Join(parts[1..], sep)
  }

  /** A character that occurs in no part and not in the separator does not
      occur in the joined text. */
  lemma {:induction false} JoinAvoids(parts: seq<string>, sep: string, c: char)
    requires forall i :: 0 <= i < |parts| ==> c !in parts[i]
    requires c !in sep
    ensures c !in Join(parts, sep)
    decreases |parts|
  {
    if |parts| > 1 {
      JoinAvoids(parts[1..], sep, c);
      assert Join(parts, sep) == parts[0] + sep + Join(parts[1..], sep);
    }
  }

  /** Cuts `s` at every occurrence of `c`; the pieces never contain `c`. */
  function Split(s: string, c: char): (pieces: seq<string>)
    ensures |pieces| > 0
    ensures forall i :: 0 <= i < |pieces| ==> c !in pieces[i]
    decreases |s|
  {
    var k := FirstIndex(s, c);
    if k == |s| then [s]
    else
      assert c !in s[..k] by {
        forall j | 0 <= j < k ensures s[..k][j] != c { }
      }
      [s[..k]] + Split(s[k + 1..], c)
  }

  /** Splitting text whose first `c` follows `a` yields `a` and then the
      pieces of what comes after that `c`. */
  lemma SplitAfter(a: string, c: char, b: string)
    requires c !in a
    ensures Split(a + [c] + b, c) == [a] + Split(b, c)
  {
    var s := a + [c] + b;
    FirstIndexAfter(a, c, b);
    assert s[..|a|] == a;
    assert s[|a| + 1..] == b;
  }

  /** Joining on a one-character separator that no part contains can be
      undone by splitting on that character. */
  lemma {:induction false} SplitJoin(parts: seq<string>, c: char)
    requires |parts| > 0
    requires forall i :: 0 <= i < |parts| ==> c !in parts[i]
    ensures Split(Join(parts, [c]), c) == parts
    decreases |parts|
  {
    if |parts| == 1 {
      var s := parts[0];
      assert Join(parts, [c]) == s;
      assert FirstIndex(s, c) == |s|;
      assert Split(s, c) == [s];
    } else {
      var rest := Join(parts[1..], [c]);
      assert Join(parts, [c]) == parts[0] + [c] + rest;
      SplitAfter(parts[0], c, rest);
      SplitJoin(parts[1..], c);
      assert Split(Join(parts, [c]), c) == [parts[0]] + parts[1..];
      assert parts == [parts[0]] + parts[1..];
    }
  }

  function DigitChar(d: nat): (c: char)
    requires d < 10
    ensures '0' <= c <= '9'
  {
    ['0', '1', '2', '3', '4', '5', '6', '7', '8', '9'][d]
  }

  /** The decimal digits of a natural number, most significant first. */
  function Digits(n: nat): (s: string)
    ensures |s| > 0
    ensures forall i :: 0 <= i < |s| ==> '0' <= s[i] <= '9'
    decreases n
  {
    if n < 10 then [DigitChar(n)] else Digits(n / 10) + [DigitChar(n % 10)]
  }

  /** Ruby's Integer#to_s: a leading minus sign for negative numbers. */
  function Decimal(n: int): string
  {
    if n < 0 then "-" + Digits(-n) else Digits(n)
  }

  // Regrouping and slicing concatenations. Proofs about texts built from
  // literal pieces stay cheap when the solver is handed these facts about
  // arbitrary pieces instead of rediscovering them on the literals.

  /** Regroups the last two of four pieces. */
  lemma Regroup4Tail(a: string, b: string, c: string, d: string)
    ensures a + b + c + d == a + b + (c + d)
  {
  }

  /** Moves the middle pair of four pieces to the right. */
  lemma Regroup4Middle(a: string, b: string, c: string, d: string)
    ensures a + (b + c) + d == a + b + (c + d)
  {
  }

  /** Regroups the last three of five pieces. */
  lemma Regroup5Tail(a: string, b: string, c: string, d: string, e: string)
    ensures a + b + c + d + e == a + b + (c + d + e)
  {
  }

  /** Ungroups the middle three of five pieces. */
  lemma Regroup5Middle(a: string, b: string, c: string, d: string, e: string)
    ensures a + (b + c + d) + e == a + b + c + d + e
  {
  }

  /** Regroups the last three of seven pieces. */
  lemma Regroup7Tail(a: string, b: string, c: string, d: string, e: string, f: string, g: string)
    ensures a + b + c + d + e + f + g == a + b + c + d + (e + f + g)
  {
  }

  /** A two-character piece is its two characters in turn. */
  lemma SplitPair(a: string, x: char, y: char, b: string)
    ensures a + [x, y] + b == (a + [x]) + [y] + b
  {
  }

  /** A text is its three consecutive slices. */
  lemma Cut(s: string, i: nat, j: nat)
    requires i <= j <= |s|
    ensures s == s[..i] + s[i..j] + s[j..]
  {
  }

  /** Where the pieces of a five-piece text start and end, and where the
      pieces of its middle three start and end. */
  lemma Frame5(a: string, b: string, c: string, d: string, e: string)
    ensures var s, m := a + b + c + d + e, b + c + d;
      && s[..|a|] == a && s[|s| - |e|..] == e && s[|a|..|s| - |e|] == m
      && m[..|b|] == b && m[|b|..|b| + |c|] == c && m[|b| + |c|..] == d
  {
  }

  /** The slices of a text made of three pieces and two separators, and
      what remains when the first separator and the middle piece are cut out. */
  lemma FiveParts(a: string, x: char, b: string, y: char, c: string)
    ensures var s, p, e := a + [x] + b + [y] + c, |a|, |a| + 1 + |b|;
      && e < |s| && s[..p] == a && s[p] == x && s[p + 1..e] == b && s[e] == y
      && (p > 0 ==> s[p - 1] == a[p - 1])
      && s[..p] + s[e..] == a + [y] + c
  {
    var s, p, e := a + [x] + b + [y] + c, |a|, |a| + 1 + |b|;
    assert s[..p] == a;
    assert s[p + 1..e] == b;
    assert s[e..] == [y] + c;
  }

  /** `s` occurs in `m` starting at index `at`. */
  predicate OccursAt(m: string, s: string, at: nat)
  {
    at + |s| <= |m| && m[at..at + |s|] == s
  }

  /** Where the odd-numbered pieces of a seven-piece text start. */
  lemma Fields7(a: string, b: string, c: string, d: string, e: string, f: string, g: string)
    ensures var m := a + b + c + d + e + f + g;
      && OccursAt(m, a, 0) && OccursAt(m, b, |a|) && OccursAt(m, d, |a| + |b| + |c|)
      && OccursAt(m, f, |a| + |b| + |c| + |d| + |e|) && OccursAt(m, g, |m| - |g|)
  {
    var m := a + b + c + d + e + f + g;
    assert m[0..|a|] == a;
    assert m[|a|..|a| + |b|] == b;
    assert m[|a| + |b| + |c|..|a| + |b| + |c| + |d|] == d;
    assert m[|a| + |b| + |c| + |d| + |e|..|a| + |b| + |c| + |d| + |e| + |f|] == f;
    assert m[|m| - |g|..] == g;
  }
}
