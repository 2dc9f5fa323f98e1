/** The crash search of `get_crashes_for_version_between_times`: a range
    literal over the `created_at` field with both bounds in double quotes,
    and the request options that carry it. */
module RangeQuery {
  import opened Strings
  import opened Values
  import opened TimeFormat

  datatype Option<T> = None | Some(value: T)

  /** Results per page that the range search asks for. */
  const PerPage := 50

  /** The range literal `["since" TO "till"]'`. The bounds are quoted because
      the service ignores an unquoted range; the single quote after the
      closing bracket is part of the literal as the client builds it. */
  function RangeLiteral(since: string, till: string): (q: string)
    ensures |q| == |since| + |till| + 11
    ensures q[..2] == "[\"" && q[|q| - 3..] == "\"]'"
  {
    "[\"" + since + "\" TO \"" + till + "\"]'"
  }

  /** Reads the two bounds back out of a range literal: the lower bound runs
      up to the first double quote, which must open the ` TO ` separator. */
  function ParseRangeLiteral(q: string): (r: Option<(string, string)>)
    ensures r.Some? ==> '"' !in r.value.0
  {
    if |q| < 11 || q[..2] != "[\"" || q[|q| - 3..] != "\"]'" then None
    else
      var body := q[2..|q| - 3];
      var k := FirstIndex(body, '"');
      if k + 6 <= |body| && body[k..k + 6] == "\" TO \"" then
        assert '"' !in body[..k] by {
          forall j | 0 <= j < k ensures body[..k][j] != '"' { }
        }
        Some((body[..k], body[k + 6..]))
      else None
  }

  /** A lower bound without double quotes is read back exactly. */
  lemma {:induction false} ParseRangeLiteralInverts(since: string, till: string)
    requires '"' !in since
    ensures ParseRangeLiteral(RangeLiteral(since, till)) == Some((since, till))
  {
    var sep := "\" TO \"";
    Frame5("[\"", since, sep, till, "\"]'");
    var body := since + sep + till;
    assert sep == ['"'] + sep[1..];
    Regroup4Middle(since, ['"'], sep[1..], till);
    FirstIndexAfter(since, '"', sep[1..] + till);
  }

  /** Whatever the parser accepts is a range literal of the bounds it
      returns, so literal and parser are inverse on their whole domain. */
  lemma {:induction false} ParsedRangeIsLiteral(q: string, since: string, till: string)
    requires ParseRangeLiteral(q) == Some((since, till))
    ensures RangeLiteral(since, till) == q && '"' !in since
  {
    var body := q[2..|q| - 3];
    var k := FirstIndex(body, '"');
    var open, sep, close := q[..2], body[k..k + 6], q[|q| - 3..];
    assert open == "[\"" && close == "\"]'" && sep == "\" TO \"";
    assert since == body[..k] && till == body[k + 6..];
    Cut(body, k, k + 6);
    Cut(q, 2, |q| - 3);
    Regroup5Middle(open, since, sep, till, close);
  }

  /** The `query` entry of the request options: fifty results per page and
      the search text `created_at:<literal>`. */
  function CrashQuery(literal: string): (v: Value)
    ensures v.Hash? && v.entries.Keys == {Sym("per_page"), Sym("query")}
    ensures v.entries[Sym("per_page")] == Int(PerPage)
    ensures v.entries[Sym("query")].Text? && |v.entries[Sym("query")].s| == 11 + |literal|
    ensures v.entries[Sym("query")].s[..11] == "created_at:" && v.entries[Sym("query")].s[11..] == literal
  {
    Hash(map[Sym("per_page") := Int(PerPage), Sym("query") := Text("created_at:" + literal)])
  }

  /** `options.merge({query: ...})`: the caller's options are kept, except
      that a caller-supplied `query` entry is replaced. */
  function MergeQuery(options: map<Key, Value>, literal: string): (r: map<Key, Value>)
    ensures r.Keys == options.Keys + {Sym("query")}
    ensures forall k | k in options && k != Sym("query") :: r[k] == options[k]
    ensures r[Sym("query")] == CrashQuery(literal)
  {
    options[Sym("query") := CrashQuery(literal)]
  }

  /** The options sent for a search between two time texts: each bound is
      normalised by `time_to_string` before it is quoted. */
  function RangeOptions(options: map<Key, Value>, sinceText: string, tillText: string): (r: map<Key, Value>)
    ensures r.Keys == options.Keys + {Sym("query")}
    ensures forall k | k in options && k != Sym("query") :: r[k] == options[k]
    ensures r[Sym("query")] == CrashQuery(RangeLiteral(TimeToString(sinceText), TimeToString(tillText)))
  {
    MergeQuery(options, RangeLiteral(TimeToString(sinceText), TimeToString(tillText)))
  }

  /** For two UTC times the service receives the ISO 8601 stamps, and they
      can be read back out of the search text when the first holds no
      quote. */
  lemma {:induction false} UtcRangeReadsBack(d1: string, t1: string, d2: string, t2: string)
    requires IsStampText(d1) && IsStampText(t1) && IsStampText(d2) && IsStampText(t2)
    requires '"' !in d1 && '"' !in t1
    ensures var r := RangeOptions(map[], d1 + " " + t1 + " UTC", d2 + " " + t2 + " UTC");
      ParseRangeLiteral(r[Sym("query")].entries[Sym("query")].s[11..]) == Some((d1 + "T" + t1, d2 + "T" + t2))
  {
    TimeInUtc(d1, t1);
    TimeInUtc(d2, t2);
    var since := d1 + "T" + t1;
    assert '"' !in since;
    ParseRangeLiteralInverts(since, d2 + "T" + t2);
  }
}
