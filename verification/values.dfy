/** Decoded response bodies and request options as the Ruby client sees
    them: nil, booleans, integers, strings, arrays and hashes. Hash keys are
    either symbols (the options the client builds) or strings (the keys of
    decoded JSON). */
module Values {
  import opened Strings

  datatype Key = Sym(name: string) | Str(text: string)

  datatype Value =
    | Null
    | Bool(b: bool)
    | Int(i: int)
    | Text(s: string)
    | List(items: seq<Value>)
    | Hash(entries: map<Key, Value>)

  /** A decoded top-level response body: a hash with string keys. */
  type Envelope = map<Key, Value>

  /** `hash["key"]` on a decoded body: nil when the key is absent. */
  function Lookup(env: Envelope, key: string): Value
  {
    if Str(key) in env then env[Str(key)] else Null
  }

  /** `value["key"]` on an element of a payload; anything but a hash is
      treated as having no attributes. */
  function Attr(v: Value, key: string): Value
  {
    if v.Hash? then Lookup(v.entries, key) else Null
  }

  predicate IsSpace(c: char)
  {
    c == ' ' || c == '\t' || c == '\n' || c == '\r' || c == '\U{B}' || c == '\U{C}'
  }

  /** ActiveSupport's `blank?`: nil, false, a string of white space, an
      empty array or an empty hash. Numbers and true are never blank. */
  predicate Blank(v: Value)
    ensures v == Null || v == Bool(false) || v == Text("") || v == List([]) || v == Hash(map[]) ==> Blank(v)
    ensures v.Int? || v == Bool(true) ==> !Blank(v)
    ensures v.Text? && Blank(v) ==> forall c :: c in v.s ==> IsSpace(c)
  {
    match v
    case Null => true
    case Bool(b) => !b
    case Int(_) => false
    case Text(s) => forall i :: 0 <= i < |s| ==> IsSpace(s[i])
    case List(items) => |items| == 0
    case Hash(entries) => |entries| == 0
  }

  /** ActiveSupport's `present?`. */
  predicate Present(v: Value)
    ensures v.Int? ==> Present(v)
    ensures v == Null ==> !Present(v)
    ensures v.List? ==> (Present(v) <==> |v.items| > 0)
  {
    !Blank(v)
  }

  /** Ruby's `to_s`, as used by string interpolation and by `e.to_s`. Only
      a string can render with a line break: everything else is shown by
      `inspect`, which escapes the line breaks of nested strings. */
  function Render(v: Value): (r: string)
    ensures v.Text? ==> r == v.s
    ensures v == Null ==> r == ""
    ensures v.Int? ==> r == Decimal(v.i)
    ensures v.List? ==> |r| >= 2 && r[0] == '[' && r[|r| - 1] == ']'
    ensures !v.Text? ==> '\n' !in r
  {
    match v
    case Text(s) => s
    case Null => ""
    case _ => Inspect(v)
  }

  /** Ruby's `inspect`, which is also `to_s` for arrays. Its output never
      holds a line break. */
  function Inspect(v: Value): (r: string)
    ensures '\n' !in r
    decreases v
  {
    match v
    case Null => "nil"
    case Bool(b) => if b then "true" else "false"
    case Int(i) => DecimalIsOneLine(i); Decimal(i)
    case Text(s) => "\"" + Escape(s) + "\""
    case List(items) =>
      var parts := seq(|items|, k requires 0 <= k < |items| => Inspect(items[k]));
      JoinAvoids(parts, ", ", '\n');
      "[" + Join(parts, ", ") + "]"
    case Hash(entries) => if |entries| == 0 then "{}" else "{...}"
  }

  lemma DecimalIsOneLine(n: int)
    ensures '\n' !in Decimal(n)
  {
    var s := if n < 0 then Digits(-n) else Digits(n);
    assert forall i :: 0 <= i < |s| ==> s[i] != '\n';
    assert Decimal(n) == if n < 0 then "-" + s else s;
  }

  // How `String#inspect` writes one character inside the quotes.

  /** The letter after the backslash for the characters Ruby writes as a
      backslash escape; `c` itself for `"`, `\\` and `#`. */
  function EscapeLetter(c: char): char
  {
    match c
    case '\n' => 'n'
    case '\t' => 't'
    case '\r' => 'r'
    case '\U{C}' => 'f'
    case '\U{B}' => 'v'
    case '\U{8}' => 'b'
    case '\U{7}' => 'a'
    case '\U{1B}' => 'e'
    case _ => c
  }

  /** Whether `String#inspect` puts a backslash before `c`; a `#` is
      escaped only where it would start an interpolation, that is before
      `{`, `$` or `@`. */
  predicate NeedsEscape(c: char, next: string)
  {
    c == '"' || c == '\\' || EscapeLetter(c) != c
    || (c == '#' && |next| > 0 && next[0] in {'{', '$', '@'})
  }

  /** The text `String#inspect` writes between the quotes: every character
      that needs it is preceded by a backslash (a control character by its
      letter). */
  function Escape(s: string): (r: string)
    ensures '\n' !in r
    ensures |r| >= |s|
    decreases |s|
  {
    if |s| == 0 then ""
    else
      var head := if NeedsEscape(s[0], s[1..]) then ['\\', EscapeLetter(s[0])] else [s[0]];
      head + Escape(s[1..])
  }

  /** The character a backslash escape stands for. */
  function UnescapeLetter(c: char): char
  {
    match c
    case 'n' => '\n'
    case 't' => '\t'
    case 'r' => '\r'
    case 'f' => '\U{C}'
    case 'v' => '\U{B}'
    case 'b' => '\U{8}'
    case 'a' => '\U{7}'
    case 'e' => '\U{1B}'
    case _ => c
  }

  /** Reads escaped text back, as Ruby's parser reads a double-quoted
      literal: a backslash and the character after it stand for one
      character. */
  function Unescape(t: string): (r: string)
    ensures |r| <= |t|
    decreases |t|
  {
    if |t| == 0 then ""
    else if t[0] == '\\' && |t| > 1 then [UnescapeLetter(t[1])] + Unescape(t[2..])
    else [t[0]] + Unescape(t[1..])
  }

  /** Escaping loses nothing: the escaped text reads back as the original. */
  lemma {:induction false} EscapeRoundTrip(s: string)
    ensures Unescape(Escape(s)) == s
    decreases |s|
  {
    if |s| > 0 {
      var rest := Escape(s[1..]);
      EscapeRoundTrip(s[1..]);
      if NeedsEscape(s[0], s[1..]) {
        var t := ['\\', EscapeLetter(s[0])] + rest;
        assert Escape(s) == t;
        assert t[2..] == rest;
        assert UnescapeLetter(EscapeLetter(s[0])) == s[0];
        assert Unescape(t) == [s[0]] + Unescape(rest);
      } else {
        var t := [s[0]] + rest;
        assert Escape(s) == t;
        assert t[1..] == rest;
        assert Unescape(t) == [s[0]] + Unescape(rest);
      }
      assert s == [s[0]] + s[1..];
    }
  }

  /** A string inside an array is shown quoted, and the text between the
      quotes reads back as the string. */
  lemma InspectedTextReadsBack(s: string)
    ensures var r := Inspect(Text(s));
      |r| >= 2 && r[0] == '"' && r[|r| - 1] == '"' && Unescape(r[1..|r| - 1]) == s
  {
    var r := Inspect(Text(s));
    assert r[1..|r| - 1] == Escape(s);
    EscapeRoundTrip(s);
  }
}
