/** Substring filters as LIKE patterns: escaping that leaves nothing to match but
    the value itself. */
module Like {
  import opened Basics

  const ESCAPE: char := '\\'

  // ----- escaping -----

  /** `str::replace` of one character by its escaped form. */
  function Replaced(s: string, c: char): string {
    if |s| == 0 then "" else (if s[0] == c then [ESCAPE, c] else [s[0]]) + Replaced(s[1..], c)
  }

  /** `escape_like`: three successive replacements. */
  function EscapeLike(s: string): string {
    Replaced(Replaced(Replaced(s, '\\'), '%'), '_')
  }

  predicate IsSpecial(c: char) { c == '\\' || c == '%' || c == '_' }

  /** One pass that escapes each special character. */
  function EscapeEach(s: string): string {
    if |s| == 0 then "" else (if IsSpecial(s[0]) then [ESCAPE, s[0]] else [s[0]]) + EscapeEach(s[1..])
  }

  lemma {:induction false} ReplacedConcat(a: string, b: string, c: char)
    ensures Replaced(a + b, c) == Replaced(a, c) + Replaced(b, c)
  {
    if |a| == 0 {
      assert a + b == b;
    } else {
      assert (a + b)[1..] == a[1..] + b;
      ReplacedConcat(a[1..], b, c);
    }
  }

  lemma ReplacedShort(x: char, y: char, c: char)
    ensures Replaced([x], c) == if x == c then [ESCAPE, c] else [x]
    ensures Replaced([x, y], c) == Replaced([x], c) + Replaced([y], c)
  {
    assert [x][1..] == "" && [x, y][1..] == [y];
  }

  /** The order of the replacements does no harm: none of them touches what an
      earlier one inserted, so together they escape character by character. */
  lemma {:induction false} EscapeIsPerCharacter(s: string)
    ensures EscapeLike(s) == EscapeEach(s)
  {
    if |s| > 0 {
      var head, rest := [s[0]], s[1..];
      assert s == head + rest;
      var one := Replaced(head, '\\');
      ReplacedConcat(head, rest, '\\');
      ReplacedConcat(one, Replaced(rest, '\\'), '%');
      ReplacedConcat(Replaced(one, '%'), Replaced(Replaced(rest, '\\'), '%'), '_');
      EscapeHead(s[0]);
      EscapeIsPerCharacter(rest);
    }
  }

  lemma EscapeHead(c: char)
    ensures EscapeLike([c]) == if IsSpecial(c) then [ESCAPE, c] else [c]
  {
    ReplacedShort(c, c, '\\');
    ReplacedShort(c, c, '%');
    ReplacedShort(c, c, '_');
    ReplacedShort(ESCAPE, c, '%');
    ReplacedShort(ESCAPE, c, '_');
    ReplacedShort(ESCAPE, ESCAPE, '%');
    ReplacedShort(ESCAPE, ESCAPE, '_');
    ReplacedShort(ESCAPE, '%', '_');
  }

  // ----- matching -----

  /** The comparison folds ASCII letters only. */
  function Fold(c: char): char {
    if 'A' <= c <= 'Z' then c - 'A' + 'a' else c
  }

  /** LIKE with ESCAPE '\': `%` any run, `_` any one character, a backslash makes
      the next character stand for itself, and one at the end matches nothing. */
  predicate Matches(pattern: string, text: string)
    decreases |pattern|, |text|
  {
    if |pattern| == 0 then text == ""
    else if pattern[0] == '%' then exists k | 0 <= k <= |text| :: Matches(pattern[1..], text[k..])
    else if pattern[0] == ESCAPE then
      |pattern| > 1 && |text| > 0 && Fold(pattern[1]) == Fold(text[0]) && Matches(pattern[2..], text[1..])
    else
      |text| > 0 && (pattern[0] == '_' || Fold(pattern[0]) == Fold(text[0])) && Matches(pattern[1..], text[1..])
  }

  /** `value` stands at the front of `text`, up to ASCII case. */
  predicate StartsWith(text: string, value: string) {
    |value| <= |text| && forall i | 0 <= i < |value| :: Fold(text[i]) == Fold(value[i])
  }

  /** `value` occurs somewhere in `text`, up to ASCII case. */
  predicate Contains(text: string, value: string) {
    exists at | 0 <= at <= |text| :: StartsWith(text[at..], value)
  }

  lemma {:induction false} EscapedPrefix(value: string, text: string)
    ensures Matches(EscapeEach(value) + "%", text) <==> StartsWith(text, value)
    decreases |value|
  {
    var pattern := EscapeEach(value) + "%";
    if |value| == 0 {
      assert pattern == "%" && pattern[1..] == "";
      assert Matches(pattern[1..], text[|text|..]);
    } else {
      var rest := EscapeEach(value[1..]) + "%";
      var width := if IsSpecial(value[0]) then 2 else 1;
      assert pattern[width..] == rest;
      if |text| > 0 {
        EscapedPrefix(value[1..], text[1..]);
        assert StartsWith(text, value) <==> Fold(text[0]) == Fold(value[0]) && StartsWith(text[1..], value[1..]) by {
          PrefixStep(text, value);
        }
      }
    }
  }

  lemma PrefixStep(text: string, value: string)
    requires |text| > 0 && |value| > 0
    ensures StartsWith(text, value) <==> Fold(text[0]) == Fold(value[0]) && StartsWith(text[1..], value[1..])
  {
    if Fold(text[0]) == Fold(value[0]) && StartsWith(text[1..], value[1..]) {
      forall i | 0 <= i < |value| ensures Fold(text[i]) == Fold(value[i]) {
        if i > 0 { assert text[1..][i - 1] == text[i] && value[1..][i - 1] == value[i]; }
      }
    }
    if StartsWith(text, value) {
      assert forall i | 0 <= i < |value| - 1 :: text[1..][i] == text[i + 1] && value[1..][i] == value[i + 1];
    }
  }

  function PatternFor(value: string): string { "%" + EscapeLike(value) + "%" }

  /** Exact substring search: whatever wildcards or backslashes the value holds,
      its pattern matches a text exactly when the text contains the value. */
  lemma PatternMeansContains(value: string, text: string)
    ensures Matches(PatternFor(value), text) <==> Contains(text, value)
  {
    EscapeIsPerCharacter(value);
    var pattern := PatternFor(value);
    var tail := EscapeEach(value) + "%";
    assert pattern[1..] == tail;
    forall k | 0 <= k <= |text| ensures Matches(tail, text[k..]) <==> StartsWith(text[k..], value) {
      EscapedPrefix(value, text[k..]);
    }
  }

  // ----- the query -----

  /** Unicode lower-casing and white space come from the standard library. */
  datatype Text = Text(lower: string -> string, isSpace: char -> bool)

  function TrimStart(s: string, isSpace: char -> bool): string {
    if |s| > 0 && isSpace(s[0]) then TrimStart(s[1..], isSpace) else s
  }

  function TrimEnd(s: string, isSpace: char -> bool): string {
    if |s| > 0 && isSpace(s[|s| - 1]) then TrimEnd(s[..|s| - 1], isSpace) else s
  }

  function Trim(s: string, isSpace: char -> bool): string { TrimEnd(TrimStart(s, isSpace), isSpace) }

  /** What a filter looks for, when it filters at all. */
  function Wanted(value: Option<string>, t: Text): Option<string> {
    if value.None? || Trim(value.value, t.isSpace) == "" then None else Some((t.lower)(Trim(value.value, t.isSpace)))
  }

  class Query {
    var sql: string
    var values: seq<string>

    constructor (sql: string)
      ensures this.sql == sql && values == []
    {
      this.sql := sql;
      values := [];
    }

    /** `add_like_filter`: one clause and one bound value, or nothing. */
    method AddLikeFilter(column: string, value: Option<string>, t: Text)
      modifies this
      ensures match Wanted(value, t)
              case None => sql == old(sql) && values == old(values)
              case Some(wanted) =>
                && sql == old(sql) + " AND lower(" + column + ") LIKE ? ESCAPE '\\'"
                && values == old(values) + [PatternFor(wanted)]
                && forall text :: Matches(values[|values| - 1], text) <==> Contains(text, wanted)
    {
      if value.Some? {
        var trimmed := Trim(value.value, t.isSpace);
        if trimmed != "" {
          sql := sql + " AND lower(";
          sql := sql + column;
          sql := sql + ") LIKE ? ESCAPE '\\'";
          var wanted := (t.lower)(trimmed);
          values := values + ["%" + EscapeLike(wanted) + "%"];
          forall text ensures Matches(PatternFor(wanted), text) <==> Contains(text, wanted) {
            PatternMeansContains(wanted, text);
          }
        }
      }
    }
  }
}
