/** `Client#time_to_string`: the text of a Time or DateTime is rewritten by
    three regular-expression substitutions,

      1. `sub(/ /, 'T')`       the first space becomes `T`;
      2. `sub(/ ?\+.*$/, '')`  from the first `+` (and a space just before
                               it) to the end of that line is removed;
      3. `sub(/ ?UTC$/, '')`   the first `UTC` that ends a line (and a space
                               just before it) is removed.

    Ruby's `sub` replaces the leftmost match only; `.` does not match a
    newline and `$` matches at the end of the string and before every
    newline. Each step is a function computed by searching the text, and
    each is proved equal to the substitution of the leftmost match of a
    predicate that describes the regular expression directly. */
module TimeFormat {
  import opened Strings

  /** Step 1: `sub(/ /, 'T')`. A match of `/ /` at `i` is a space at `i`. */
  function ReplaceFirstSpace(s: string): (r: string)
    ensures |r| == |s|
    ensures ' ' !in s ==> r == s
    ensures forall i | 0 <= i < |s| && s[i] == ' ' && ' ' !in s[..i] :: r == s[..i] + "T" + s[i + 1..]
  {
    var k := FirstIndex(s, ' ');
    if k == |s| then s
    else
      s[..k] + "T" + s[k + 1..]
  }

  /** Ruby's `$` holds at `j`: the end of the text or just before a newline. */
  predicate AtLineEnd(s: string, j: nat)
  {
    j == |s| || (j < |s| && s[j] == '\n')
  }

  /** `s[i..j]` is what `/ ?\+.*$/` matches when it is tried at `i`: an
      optional space, a plus sign, then everything up to the end of the
      line. */
  predicate OffsetMatch(s: string, i: nat, j: nat)
  {
    && j <= |s|
    && AtLineEnd(s, j)
    && (|| (i < j && s[i] == '+' && '\n' !in s[i + 1..j])
        || (i + 1 < j && s[i] == ' ' && s[i + 1] == '+' && '\n' !in s[i + 2..j]))
  }

  /** The first newline at or after `from`, or the end of the text. */
  function LineEnd(s: string, from: nat): (e: nat)
    requires from <= |s|
    ensures from <= e <= |s| && AtLineEnd(s, e)
    ensures '\n' !in s[from..e]
  {
    var k := FirstIndex(s[from..], '\n');
    assert s[from..][..k] == s[from..from + k];
    from + k
  }

  /** Step 2: `sub(/ ?\+.*$/, '')`. */
  function StripOffset(s: string): (r: string)
    ensures '+' !in s ==> r == s
    ensures |r| <= |s|
  {
    var p := FirstIndex(s, '+');
    if p == |s| then s
    else
      var start := if p > 0 && s[p - 1] == ' ' then p - 1 else p;
      s[..start] + s[LineEnd(s, p + 1)..]
  }

  /** Two line ends that are not separated by a newline are the same. */
  lemma LineEndUnique(s: string, from: nat, j: nat)
    requires from <= j <= |s| && AtLineEnd(s, j) && '\n' !in s[from..j]
    ensures j == LineEnd(s, from)
  {
    var e := LineEnd(s, from);
  }

  /** When `/ ?\+.*$/` matches at `i` and nowhere to the left of `i`,
      step 2 removes exactly that match. */
  lemma {:induction false} StripOffsetIsLeftmostSub(s: string, i: nat, j: nat)
    requires OffsetMatch(s, i, j)
    requires forall k: nat, l: nat | k < i :: !OffsetMatch(s, k, l)
    ensures StripOffset(s) == s[..i] + s[j..]
  {
    var p := FirstIndex(s, '+');
    var plus := if s[i] == '+' then i else i + 1;
    assert s[plus] == '+';
    assert p <= plus;
    var start := if p > 0 && s[p - 1] == ' ' then p - 1 else p;
    var e := LineEnd(s, p + 1);
    assert OffsetMatch(s, start, e) by {
      if start == p - 1 {
        assert s[start + 2..e] == s[p + 1..e];
      }
    }
    assert start == i;
    assert plus == p;
    LineEndUnique(s, p + 1, j);
  }

  /** When `/ ?\+.*$/` matches nowhere, step 2 changes nothing. */
  lemma {:induction false} StripOffsetWithoutMatch(s: string)
    requires forall k: nat, l: nat :: !OffsetMatch(s, k, l)
    ensures StripOffset(s) == s
  {
    var p := FirstIndex(s, '+');
    if p < |s| {
      assert OffsetMatch(s, p, LineEnd(s, p + 1));
      assert false;
    }
  }

  /** `UTC` stands at `q` and is followed by the end of a line. */
  predicate UtcEndsLine(s: string, q: nat)
  {
    q + 3 <= |s| && s[q..q + 3] == "UTC" && AtLineEnd(s, q + 3)
  }

  /** `s[i..j]` is what `/ ?UTC$/` matches when it is tried at `i`. */
  predicate UtcMatch(s: string, i: nat, j: nat)
  {
    || (j == i + 3 && UtcEndsLine(s, i))
    || (j == i + 4 && i < |s| && s[i] == ' ' && UtcEndsLine(s, i + 1))
  }

  /** The first position at or after `from` where a line-ending `UTC`
      stands, or the end of the text. */
  function FirstUtc(s: string, from: nat): (q: nat)
    requires from <= |s|
    ensures from <= q <= |s|
    ensures q < |s| ==> UtcEndsLine(s, q)
    ensures forall k :: from <= k < q ==> !UtcEndsLine(s, k)
    decreases |s| - from
  {
    if from == |s| then |s|
    else if UtcEndsLine(s, from) then from
    else FirstUtc(s, from + 1)
  }

  /** Step 3: `sub(/ ?UTC$/, '')`. */
  function StripUtc(s: string): (r: string)
    ensures forall c :: c in r ==> c in s
    ensures |r| <= |s|
  {
    var q := FirstUtc(s, 0);
    if q == |s| then s
    else
      var start := if q > 0 && s[q - 1] == ' ' then q - 1 else q;
      assert forall c :: c in s[..start] + s[q + 3..] ==> c in s by {
        forall c | c in s[..start] + s[q + 3..] ensures c in s {
          if c in s[..start] {
            var k :| 0 <= k < start && s[..start][k] == c;
            assert s[k] == c;
          } else {
            var k :| 0 <= k < |s| - (q + 3) && s[q + 3..][k] == c;
            assert s[q + 3 + k] == c;
          }
        }
      }
      s[..start] + s[q + 3..]
  }

  /** When `/ ?UTC$/` matches at `i` and nowhere to the left of `i`, step 3
      removes exactly that match. */
  lemma {:induction false} StripUtcIsLeftmostSub(s: string, i: nat, j: nat)
    requires UtcMatch(s, i, j)
    requires forall k: nat, l: nat | k < i :: !UtcMatch(s, k, l)
    ensures StripUtc(s) == s[..i] + s[j..]
  {
    var q := FirstUtc(s, 0);
    var u := if j == i + 3 then i else i + 1;
    assert UtcEndsLine(s, u);
    assert q <= u;
    var start := if q > 0 && s[q - 1] == ' ' then q - 1 else q;
    assert q < |s| && UtcEndsLine(s, q);
    assert UtcMatch(s, start, q + 3);
    assert start == i;
    if start == q - 1 {
      assert s[i] == ' ';
      assert j == q + 3;
    } else {
      assert s[q..q + 3][0] == 'U';
      assert j == q + 3;
    }
  }

  lemma FirstUtcMatches(s: string)
    ensures FirstUtc(s, 0) < |s| ==> UtcMatch(s, FirstUtc(s, 0), FirstUtc(s, 0) + 3)
  {
  }

  /** When `/ ?UTC$/` matches nowhere, step 3 changes nothing. */
  lemma {:induction false} StripUtcWithoutMatch(s: string)
    requires forall k: nat, l: nat :: !UtcMatch(s, k, l)
    ensures StripUtc(s) == s
  {
    FirstUtcMatches(s);
  }

  /** `Client#time_to_string` applied to the text `time.to_s`. */
  function TimeToString(text: string): (r: string)
    ensures |r| <= |text|
  {
    StripUtc(StripOffset(ReplaceFirstSpace(text)))
  }

  /** Text that `time_to_string` leaves alone: no space, no plus sign and no
      `UTC` at the end of a line. */
  predicate Normalized(s: string)
  {
    ' ' !in s && '+' !in s && forall q: nat | q < |s| :: !UtcEndsLine(s, q)
  }

  /** Normalized text is a fixed point, so applying `time_to_string` again
      to normalized output changes nothing. */
  lemma {:induction false} NormalizedIsFixedPoint(s: string)
    requires Normalized(s)
    ensures TimeToString(s) == s
  {
    assert ReplaceFirstSpace(s) == s;
    assert StripOffset(s) == s;
    StripUtcWithoutUtc(s);
  }

  /** Step 1 on text whose first space follows `a`. */
  lemma ReplaceSpaceAfter(a: string, b: string)
    requires ' ' !in a
    ensures ReplaceFirstSpace(a + [' '] + b) == a + ['T'] + b
  {
    var s := a + [' '] + b;
    FirstIndexAfter(a, ' ', b);
    assert s[..|a|] == a && s[|a| + 1..] == b;
  }

  /** Step 2 on text whose first plus sign follows `head` and whose rest is
      a single line. */
  lemma StripOffsetAfter(head: string, offset: string)
    requires '+' !in head && '\n' !in offset
    ensures StripOffset(head + ['+'] + offset) ==
      if |head| > 0 && head[|head| - 1] == ' ' then head[..|head| - 1] else head
  {
    var s := head + ['+'] + offset;
    FirstIndexAfter(head, '+', offset);
    assert s[|head| + 1..] == offset;
    LineEndUnique(s, |head| + 1, |s|);
    assert s[..|head|] == head;
  }

  /** Step 3 on text with no `UTC` ending a line. */
  lemma StripUtcWithoutUtc(s: string)
    requires forall q: nat | q < |s| :: !UtcEndsLine(s, q)
    ensures StripUtc(s) == s
  {
    assert FirstUtc(s, 0) == |s|;
  }

  /** Step 3 on single-line text that ends in `" UTC"`. */
  lemma StripUtcSuffix(stamp: string)
    requires '\n' !in stamp
    ensures StripUtc(stamp + " UTC") == stamp
  {
    var s := stamp + " UTC";
    assert '\n' !in s;
    var q := |stamp| + 1;
    assert s[q..q + 3] == "UTC";
    assert UtcEndsLine(s, q);
    forall k: nat | k < q ensures !UtcEndsLine(s, k) {
      if k + 3 < |s| {
        assert s[k + 3] in s;
      }
    }
    assert FirstUtc(s, 0) == q;
    assert s[..q - 1] == stamp;
  }

  /** The text of a date field (`2021-06-01`) or a clock field
      (`10:00:00`): it holds none of the characters the substitutions look
      for (a space, a plus sign, a newline, or a `C`, so that no `UTC` can
      end it). */
  predicate IsStampText(t: string)
  {
    ' ' !in t && '+' !in t && '\n' !in t && 'C' !in t
  }

  /** Text without a `C` has no `UTC` anywhere. */
  lemma NoUtcWithoutC(x: string)
    requires 'C' !in x
    ensures forall q: nat :: !UtcEndsLine(x, q)
  {
    forall q: nat | q + 3 <= |x| ensures !UtcEndsLine(x, q) {
      assert x[q..q + 3][2] == x[q + 2];
      assert x[q + 2] in x;
    }
  }

  /** Step 3 leaves text without a `C` alone. */
  lemma StripUtcWithoutC(x: string)
    requires 'C' !in x
    ensures StripUtc(x) == x
  {
    NoUtcWithoutC(x);
    StripUtcWithoutUtc(x);
  }

  /** `DTT` built from a date `D` and a time `T` is normalized. */
  lemma StampIsNormalized(d: string, t: string)
    requires IsStampText(d) && IsStampText(t)
    ensures Normalized(d + "T" + t)
  {
    NoUtcWithoutC(d + "T" + t);
  }

  /** The result for each of the three renderings is a fixed point, so a
      second application changes nothing. */
  lemma {:induction false} RenderingsNormalizeOnce(d: string, t: string, offset: string)
    requires IsStampText(d) && IsStampText(t) && '\n' !in offset && ' ' !in offset
    ensures TimeToString(TimeToString(d + " " + t + " +" + offset)) == d + "T" + t
    ensures TimeToString(TimeToString(d + " " + t + " UTC")) == d + "T" + t
    ensures TimeToString(TimeToString(d + "T" + t + "+" + offset)) == d + "T" + t
  {
    TimeWithOffset(d, t, offset);
    TimeInUtc(d, t);
    DateTimeWithOffset(d, t, offset);
    StampIsNormalized(d, t);
    NormalizedIsFixedPoint(d + "T" + t);
  }

  /** `Time#to_s` of a time with a positive offset, `"D T +0000"`, becomes
      `"DTT"`. */
  lemma {:induction false} TimeWithOffset(d: string, t: string, offset: string)
    requires IsStampText(d) && IsStampText(t) && '\n' !in offset
    ensures TimeToString(d + " " + t + " +" + offset) == d + "T" + t
  {
    var stamp := d + "T" + t;
    var head := stamp + " ";
    Regroup5Tail(d, " ", t, " +", offset);
    Regroup5Tail(d, "T", t, " +", offset);
    ReplaceSpaceAfter(d, t + " +" + offset);
    SplitPair(stamp, ' ', '+', offset);
    StripOffsetAfter(head, offset);
    assert head[..|head| - 1] == stamp;
    StripUtcWithoutC(stamp);
    Steps(d + " " + t + " +" + offset, head + ['+'] + offset, stamp, stamp);
  }

  /** `Time#to_s` of a UTC time, `"D T UTC"`, becomes `"DTT"`. */
  lemma {:induction false} TimeInUtc(d: string, t: string)
    requires IsStampText(d) && IsStampText(t)
    ensures TimeToString(d + " " + t + " UTC") == d + "T" + t
  {
    var stamp := d + "T" + t;
    var s1 := stamp + " UTC";
    Regroup4Tail(d, " ", t, " UTC");
    Regroup4Tail(d, "T", t, " UTC");
    ReplaceSpaceAfter(d, t + " UTC");
    assert '+' !in s1;
    StripUtcSuffix(stamp);
    Steps(d + " " + t + " UTC", s1, s1, stamp);
  }

  /** `DateTime#to_s`, `"DTT+00:00"`, becomes `"DTT"`. */
  lemma {:induction false} DateTimeWithOffset(d: string, t: string, offset: string)
    requires IsStampText(d) && IsStampText(t) && '\n' !in offset && ' ' !in offset
    ensures TimeToString(d + "T" + t + "+" + offset) == d + "T" + t
  {
    var stamp := d + "T" + t;
    var s := stamp + ['+'] + offset;
    assert d + "T" + t + "+" + offset == s;
    assert ' ' !in s;
    StripOffsetAfter(stamp, offset);
    assert stamp[|stamp| - 1] != ' ' by {
      assert stamp[|stamp| - 1] in stamp;
    }
    StripUtcWithoutC(stamp);
  }

  /** On single-line text the result never holds a plus sign. */
  lemma {:induction false} SingleLineOutputHasNoPlus(text: string)
    requires '\n' !in text
    ensures '+' !in TimeToString(text)
  {
    var s1 := ReplaceFirstSpace(text);
    ReplaceFirstSpaceAddsOnlyT(text);
    SingleLineStripOffset(s1);
  }

  /** Step 1 brings in no character but `T`. */
  lemma ReplaceFirstSpaceAddsOnlyT(s: string)
    ensures forall c :: c in ReplaceFirstSpace(s) && c != 'T' ==> c in s
  {
    var f := FirstIndex(s, ' ');
    if f < |s| {
      var r := ReplaceFirstSpace(s);
      forall c | c in r && c != 'T' ensures c in s {
        var k :| 0 <= k < |r| && r[k] == c;
        assert r[k] == s[k];
      }
    }
  }

  /** On a single line, step 2 removes everything from the first plus sign. */
  lemma SingleLineStripOffset(s: string)
    requires '\n' !in s
    ensures '+' !in StripOffset(s)
  {
    var p := FirstIndex(s, '+');
    if p < |s| {
      var start := if p > 0 && s[p - 1] == ' ' then p - 1 else p;
      LineEndUnique(s, p + 1, |s|);
      assert StripOffset(s) == s[..start];
      assert '+' !in s[..start] by {
        forall k | 0 <= k < start ensures s[..start][k] != '+' { }
      }
    }
  }

  /** `time_to_string` is its three steps in order. */
  lemma Steps(s: string, s1: string, s2: string, s3: string)
    requires ReplaceFirstSpace(s) == s1 && StripOffset(s1) == s2 && StripUtc(s2) == s3
    ensures TimeToString(s) == s3
  {
  }

  /** Step 1 then steps 2 and 3 on a plain tail: a space after `a`, none in
      `a`, and no plus sign or `C` anywhere. */
  lemma ReplaceSpaceOnly(a: string, b: string)
    requires ' ' !in a && '+' !in a + b && 'C' !in a + b
    ensures TimeToString(a + [' '] + b) == a + ['T'] + b
  {
    ReplaceSpaceAfter(a, b);
    StripUtcWithoutC(a + ['T'] + b);
    Steps(a + [' '] + b, a + ['T'] + b, a + ['T'] + b, a + ['T'] + b);
  }

  /** Outside normalized text the function is not idempotent: only the
      first space is replaced, so a second application replaces the next
      one (`"1 2 3"` becomes `"1T2 3"`, then `"1T2T3"`). */
  lemma {:induction false} SecondSpaceSurvives(a: string, b: string, c: string)
    requires IsStampText(a) && IsStampText(b) && IsStampText(c)
    ensures TimeToString(a + " " + b + " " + c) == a + "T" + b + " " + c
    ensures TimeToString(TimeToString(a + " " + b + " " + c)) == a + "T" + b + "T" + c
  {
    var rest := b + " " + c;
    assert a + " " + b + " " + c == a + [' '] + rest;
    assert a + "T" + b + " " + c == a + ['T'] + rest;
    ReplaceSpaceOnly(a, rest);
    var head := a + "T" + b;
    assert a + "T" + b + " " + c == head + [' '] + c;
    assert a + "T" + b + "T" + c == head + ['T'] + c;
    ReplaceSpaceOnly(head, c);
  }

  /** Step 2 when the first plus sign is at `p`, with no space before it,
      and its line ends at `e`. */
  lemma StripOffsetAt(s: string, p: nat, e: nat)
    requires p < e <= |s| && s[p] == '+' && '+' !in s[..p]
    requires p > 0 ==> s[p - 1] != ' '
    requires AtLineEnd(s, e) && '\n' !in s[p + 1..e]
    ensures StripOffset(s) == s[..p] + s[e..]
  {
    assert FirstIndex(s, '+') == p;
    LineEndUnique(s, p + 1, e);
  }

  /** Step 2 on text whose first plus sign follows `head`: the rest of that
      line goes, later lines stay. */
  lemma StripOffsetFirstLine(head: string, line: string, rest: string)
    requires '+' !in head && '\n' !in line
    requires |head| > 0 ==> head[|head| - 1] != ' '
    ensures StripOffset(head + ['+'] + line + ['\n'] + rest) == head + ['\n'] + rest
  {
    FiveParts(head, '+', line, '\n', rest);
    StripOffsetAt(head + ['+'] + line + ['\n'] + rest, |head|, |head| + 1 + |line|);
  }

  /** Step 2 cuts on the line that holds the first plus sign, whichever
      line that is: an offset on a second line goes when the first line has
      none. */
  lemma {:induction false} OffsetOnSecondLine(x: string, y: string, offset: string)
    requires '+' !in x && '+' !in y && '\n' !in offset
    requires |y| > 0 && y[|y| - 1] != ' '
    ensures StripOffset(x + "\n" + y + "+" + offset) == x + "\n" + y
  {
    var head := x + "\n" + y;
    assert '+' !in head;
    StripOffsetAfter(head, offset);
    assert head[|head| - 1] == y[|y| - 1];
  }

  /** Only the line holding the first plus sign loses its offset, so a plus
      sign on a later line survives. */
  lemma {:induction false} LaterLinesKeepTheirOffset(a: string, b: string, c: string)
    requires IsStampText(a) && IsStampText(b) && IsStampText(c)
    ensures TimeToString(a + "+" + b + "\n" + c + "+" + b) == a + "\n" + c + "+" + b
    ensures '+' in TimeToString(a + "+" + b + "\n" + c + "+" + b)
  {
    var tail := c + "+" + b;
    var s := a + ['+'] + b + ['\n'] + tail;
    var r := a + ['\n'] + tail;
    assert TimeToString(s) == r by {
      assert ' ' !in s;
      assert |a| > 0 ==> a[|a| - 1] in a;
      StripOffsetFirstLine(a, b, tail);
      StripUtcWithoutC(r);
      Steps(s, s, r, r);
    }
    assert '+' in r by {
      assert r[|a| + 1 + |c|] == '+';
    }
    Regroup7Tail(a, "+", b, "\n", c, "+", b);
    Regroup5Tail(a, "\n", c, "+", b);
  }
}
