/**
 * Ruby's `String#inspect` and `Array#to_s`, which is how a string column
 * stores an array of strings assigned to it.
 */
module RubyInspect {
  /** Whether `String#inspect` puts a backslash before the first character of `s`. */
  predicate EscapedFirst(s: string)
    requires s != []
  {
    s[0] == '"' || s[0] == '\\' || (s[0] == '#' && |s| > 1 && (s[1] == '{' || s[1] == '$' || s[1] == '@'))
  }

  /**
   * The body of Ruby's `String#inspect` for printable characters: `"` and
   * `\` are escaped, and so is `#` before `{`, `$` or `@`.
   */
  function EscapeBody(s: string): string
    decreases |s|
  {
    if s == [] then []
    else if EscapedFirst(s) then ['\\', s[0]] + EscapeBody(s[1..])
    else [s[0]] + EscapeBody(s[1..])
  }

  /** Reading an escaped body back: a backslash stands for the character after it. */
  function Unescape(s: string): string
    decreases |s|
  {
    if s == [] then []
    else if s[0] == '\\' && |s| > 1 then [s[1]] + Unescape(s[2..])
    else [s[0]] + Unescape(s[1..])
  }

  /** Escaping loses nothing: reading the escaped body back gives the string. */
  lemma {:induction false} UnescapeEscapeBody(s: string)
    ensures Unescape(EscapeBody(s)) == s
    decreases |s|
  {
    if s != [] {
      UnescapeEscapeBody(s[1..]);
      var e := EscapeBody(s);
      if EscapedFirst(s) {
        assert e[2..] == EscapeBody(s[1..]);
      } else {
        assert s[0] != '\\';
        assert e[1..] == EscapeBody(s[1..]);
      }
    }
  }

  /** A string without `"`, `\` or `#` is its own escaped body. */
  lemma {:induction false} EscapeBodyOfPlain(s: string)
    requires forall k | 0 <= k < |s| :: s[k] != '"' && s[k] != '\\' && s[k] != '#'
    ensures EscapeBody(s) == s
    decreases |s|
  {
    if s != [] {
      EscapeBodyOfPlain(s[1..]);
      assert s == [s[0]] + s[1..];
    }
  }

  /** Ruby's `String#inspect`: the escaped body in double quotes. */
  function Inspect(s: string): string {
    "\"" + EscapeBody(s) + "\""
  }

  /** The elements' `inspect`, separated by `, `. */
  function JoinInspected(xs: seq<string>): string
    decreases |xs|
  {
    if xs == [] then ""
    else if |xs| == 1 then Inspect(xs[0])
    else Inspect(xs[0]) + ", " + JoinInspected(xs[1..])
  }

  /** Ruby's `Array#to_s` on an array of strings, which is its `inspect`: `["a", "b"]`. */
  function ArrayToS(xs: seq<string>): (r: string)
    ensures |r| >= 2 && r[0] == '[' && r[|r| - 1] == ']'
  {
    "[" + JoinInspected(xs) + "]"
  }
}
